/** The request handler `upbit_trade`: scan the account, consult the advisory
    service, decide, and place at most one order. The market-data queries and the
    language-model call are folded into the `consult` parameter, which maps the
    scanned position to the advisory text. */
module Handler {
  import opened Wrappers
  import opened Text
  import opened Account
  import opened Decision
  import opened Order

  /** A number of the request's JSON body: its value, and the text `str()` gives it. */
  datatype Number = Number(value: real, text: string)

  datatype TradeRequest = TradeRequest(ticker: string, volume: Number, price: Number)

  /** What one request produces: the response body, the action chosen and the
      order placed, if any. */
  datatype Reply = Reply(body: string, action: Action, order: Option<Order>)

  /** The order each action places: `buy(ticker, price)` for a buy,
      `sell(ticker, volume)` for a sell, none otherwise. */
  function OrderFor(action: Action, request: TradeRequest): (o: Option<Order>)
    ensures o.Some? <==> action in {Buy, Sell}
    ensures o.Some? ==> o.value.ticker == request.ticker
    ensures o.Some? ==> (o.value.BuyOrder? <==> action == Buy)
    ensures o.Some? && o.value.BuyOrder? ==> o.value.price == request.price.text
    ensures o.Some? && o.value.SellOrder? ==> o.value.volume == request.volume.text
  {
    match action
    case Buy => Some(BuyOrder(request.ticker, request.price.text))
    case Sell => Some(SellOrder(request.ticker, request.volume.text))
    case _ => None
  }

  /** The outcome of one request. */
  function Respond(request: TradeRequest, accounts: seq<Entry>, consult: Position -> string)
    : (r: Result<Reply, ScanError>)
    ensures r.Failure? <==> forall i | 0 <= i < |accounts| :: accounts[i].currency != KRW
    ensures r.Success? ==>
      var position := Snapshot(accounts, request.ticker).value;
      && r.value.body == consult(position)
      && r.value.action == Decide(
           r.value.body, position.balance, request.price.value, position.amount, request.volume.value)
      && r.value.order == OrderFor(r.value.action, request)
  {
    SnapshotMeaning(accounts, request.ticker, Snapshot(accounts, request.ticker));
    match Snapshot(accounts, request.ticker)
    case Failure(e) => Failure(e)
    case Success(position) =>
      var advice := consult(position);
      var action := Decide(advice, position.balance, request.price.value, position.amount, request.volume.value);
      Success(Reply(advice, action, OrderFor(action, request)))
  }

  /** The handler: the account scan comes first and a failure there ends the
      request before the advisory service is consulted. */
  method UpbitTrade(request: TradeRequest, accounts: seq<Entry>, consult: Position -> string)
    returns (r: Result<Reply, ScanError>)
    ensures r == Respond(request, accounts, consult)
  {
    var scan := GetPositionAndPriceAndBalance(accounts, request.ticker);
    if scan.Failure? {
      return Failure(scan.error);
    }
    var position := scan.value;
    var advice := consult(position);
    var action := Decide(advice, position.balance, request.price.value, position.amount, request.volume.value);
    r := Success(Reply(advice, action, OrderFor(action, request)));
  }

  /** Whatever action is taken, the response body is the advisory text, and an
      order is placed exactly for a buy or a sell. */
  lemma EchoesAdviceAndTradesAtMostOnce(request: TradeRequest, accounts: seq<Entry>, consult: Position -> string)
    requires Respond(request, accounts, consult).Success?
    ensures var reply := Respond(request, accounts, consult).value;
      && reply.body == consult(Snapshot(accounts, request.ticker).value)
      && (reply.order.Some? <==> reply.action in {Buy, Sell})
      && (reply.order.Some? && reply.order.value.BuyOrder? ==> Contains(reply.body, BUY_TOKEN))
      && (reply.order.Some? && reply.order.value.SellOrder? ==> Contains(reply.body, SELL_TOKEN))
  {
  }

  /** Held amounts are truncated to whole units before the sell guard, so a sell
      of a non-negative volume needs at least one whole unit in the last line of
      the ticker. */
  lemma SellNeedsWholeUnit(request: TradeRequest, accounts: seq<Entry>, consult: Position -> string)
    requires request.volume.value >= 0.0
    requires Respond(request, accounts, consult).Success?
    requires Respond(request, accounts, consult).value.action == Sell
    ensures LastOf(accounts, request.ticker).Some?
    ensures accounts[LastOf(accounts, request.ticker).value].balance >= 1.0
  {
    var position := Snapshot(accounts, request.ticker).value;
    assert position.amount >= 1;
    assert LastOf(accounts, request.ticker).Some?;
    var k := LastOf(accounts, request.ticker).value;
    assert position.amount == Trunc(accounts[k].balance);
  }

  /** A buy advice with cash above the price places a price-type bid. */
  lemma ScenarioBuy()
    ensures Respond(
      TradeRequest("BTC", Number(0.01, "0.01"), Number(1000000.0, "1000000")),
      [Entry("KRW", 0.0, 2000000.0)],
      _ => "BBUUYY because...")
      == Success(Reply("BBUUYY because...", Buy, Some(BuyOrder("BTC", "1000000"))))
  {
    assert OccursAt("BBUUYY because...", BUY_TOKEN, 0);
  }

  /** A sell advice for less than one whole held unit takes no action. */
  lemma ScenarioSellRefused()
    ensures Respond(
      TradeRequest("BTC", Number(0.01, "0.01"), Number(1000000.0, "1000000")),
      [Entry("BTC", 50000000.0, 0.005), Entry("KRW", 0.0, 2000000.0)],
      _ => "SSEELLLL...")
      == Success(Reply("SSEELLLL...", NoAction, None))
  {
    MissingCharacter("SSEELLLL...", BUY_TOKEN, 'B');
    MissingCharacter("SSEELLLL...", HOLD_TOKEN, 'H');
  }

  /** A hold advice places no order and still echoes the advice. */
  lemma ScenarioHold()
    ensures Respond(
      TradeRequest("BTC", Number(0.01, "0.01"), Number(1000000.0, "1000000")),
      [Entry("KRW", 0.0, 2000000.0)],
      _ => "HHOOLLDD, market is flat")
      == Success(Reply("HHOOLLDD, market is flat", Hold, None))
  {
    var advice := "HHOOLLDD, market is flat";
    assert OccursAt(advice, HOLD_TOKEN, 0);
    assert !Contains(advice, BUY_TOKEN) by {
      MissingCharacter(advice, BUY_TOKEN, 'B');
    }
    assert !Contains(advice, SELL_TOKEN) by {
      MissingCharacter(advice, SELL_TOKEN, 'S');
    }
    assert Snapshot([Entry("KRW", 0.0, 2000000.0)], "BTC") == Success(Position(Off, 0, 0, 2000000));
  }

  /** An empty account list fails the request. */
  lemma ScenarioEmptyAccount(request: TradeRequest, consult: Position -> string)
    ensures Respond(request, [], consult) == Failure(MissingKrwBalance)
  {
  }
}
