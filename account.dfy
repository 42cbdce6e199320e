/** The account scan of `getPositionAndPriceAndBalance`: one pass over the
    exchange's account list that picks out the position held in the requested
    ticker and the KRW cash balance. */
module Account {
  import opened Wrappers

  /** The currency code of the cash line. */
  const KRW := "KRW"

  /** One line of the account list, with `avg_buy_price` and `balance` already
      read as numbers (the floats the source parses them into). */
  datatype Entry = Entry(currency: string, avgBuyPrice: real, balance: real)

  /** The `exists` flag of the source (the string 'on' or 'off'), kept in the
      `held` field of a position. */
  datatype Presence = Off | On

  /** The four values the scan returns: the flag, the truncated average price and
      held amount of the ticker, and the truncated KRW balance. */
  datatype Position = Position(held: Presence, price: int, amount: int, balance: int)

  /** The scan fails when no KRW line was seen: the balance variable is never bound. */
  datatype ScanError = MissingKrwBalance

  /** Python's `int()` of a float: truncation toward zero. */
  function Trunc(x: real): (n: int)
    ensures 0.0 <= x ==> n as real <= x < n as real + 1.0
    ensures x < 0.0 ==> n as real - 1.0 < x <= n as real
  {
    if 0.0 <= x then x.Floor else -((-x).Floor)
  }

  /** The index of the last entry of the given currency, if there is one. */
  function LastOf(accounts: seq<Entry>, currency: string): (k: Option<nat>)
    ensures k.None? <==> forall i | 0 <= i < |accounts| :: accounts[i].currency != currency
    ensures k.Some? ==> k.value < |accounts| && accounts[k.value].currency == currency
    ensures k.Some? ==> forall j | k.value < j < |accounts| :: accounts[j].currency != currency
    decreases |accounts|
  {
    if accounts == [] then None
    else if accounts[|accounts| - 1].currency == currency then Some(|accounts| - 1)
    else LastOf(accounts[..|accounts| - 1], currency)
  }

  /** What the scan yields: the position fields from the last line of the ticker
      (0 when there is none), the balance from the last KRW line, and an error
      when there is no KRW line at all. */
  function Snapshot(accounts: seq<Entry>, ticker: string): (r: Result<Position, ScanError>)
    ensures r.Failure? <==> forall i | 0 <= i < |accounts| :: accounts[i].currency != KRW
    ensures r.Success? ==>
      (r.value.held == On <==> exists i | 0 <= i < |accounts| :: accounts[i].currency == ticker)
    ensures r.Success? && r.value.held == Off ==> r.value.price == 0 && r.value.amount == 0
  {
    match LastOf(accounts, KRW)
    case None => Failure(MissingKrwBalance)
    case Some(c) =>
      var cash := Trunc(accounts[c].balance);
      match LastOf(accounts, ticker)
      case None => Success(Position(Off, 0, 0, cash))
      case Some(k) =>
        Success(Position(On, Trunc(accounts[k].avgBuyPrice), Trunc(accounts[k].balance), cash))
  }

  /** The meaning of the scan's result, stated without the helper index function. */
  lemma SnapshotMeaning(accounts: seq<Entry>, ticker: string, r: Result<Position, ScanError>)
    requires r == Snapshot(accounts, ticker)
    ensures r.Failure? <==> forall i | 0 <= i < |accounts| :: accounts[i].currency != KRW
    ensures r.Success? ==>
      (r.value.held == On <==> exists i | 0 <= i < |accounts| :: accounts[i].currency == ticker)
    ensures r.Success? && r.value.held == Off ==> r.value.price == 0 && r.value.amount == 0
    ensures r.Success? && r.value.held == On ==>
      exists k | 0 <= k < |accounts| ::
        && accounts[k].currency == ticker
        && r.value.price == Trunc(accounts[k].avgBuyPrice)
        && r.value.amount == Trunc(accounts[k].balance)
        && forall j | k < j < |accounts| :: accounts[j].currency != ticker
    ensures r.Success? ==>
      exists k | 0 <= k < |accounts| ::
        && accounts[k].currency == KRW
        && r.value.balance == Trunc(accounts[k].balance)
        && forall j | k < j < |accounts| :: accounts[j].currency != KRW
  {
  }

  /** The loop of the source: every line of the ticker overwrites the flag, price
      and amount; every KRW line overwrites the balance. */
  method GetPositionAndPriceAndBalance(accounts: seq<Entry>, ticker: string)
    returns (r: Result<Position, ScanError>)
    ensures r == Snapshot(accounts, ticker)
  {
    var held := Off;
    var price := 0;
    var amount := 0;
    var balance: Option<int> := None;
    for i := 0 to |accounts|
      invariant match LastOf(accounts[..i], ticker)
        case None => held == Off && price == 0 && amount == 0
        case Some(k) =>
          && held == On
          && price == Trunc(accounts[k].avgBuyPrice)
          && amount == Trunc(accounts[k].balance)
      invariant balance == match LastOf(accounts[..i], KRW)
        case None => None
        case Some(c) => Some(Trunc(accounts[c].balance))
    {
      assert accounts[..i + 1][..i] == accounts[..i];
      var item := accounts[i];
      if item.currency == ticker {
        held := On;
        price := Trunc(item.avgBuyPrice);
        amount := Trunc(item.balance);
      }
      if item.currency == KRW {
        balance := Some(Trunc(item.balance));
      }
    }
    assert accounts[..|accounts|] == accounts;
    if balance.None? {
      r := Failure(MissingKrwBalance);
    } else {
      r := Success(Position(held, price, amount, balance.value));
    }
  }

  /** Appending a line of a currency changes the last-line index of that currency
      only. */
  lemma LastOfAppend(accounts: seq<Entry>, e: Entry, currency: string)
    ensures LastOf(accounts + [e], currency) ==
      if e.currency == currency then Some(|accounts|) else LastOf(accounts, currency)
  {
    assert (accounts + [e])[..|accounts|] == accounts;
  }

  /** A line of any other currency, wherever it stands, leaves the last-line
      index of a currency unchanged. */
  lemma {:induction false} LastOfIgnores(a: seq<Entry>, e: Entry, b: seq<Entry>, currency: string)
    requires e.currency != currency
    ensures LastOf(a + [e] + b, currency) == Shift(LastOf(a + b, currency), |a|)
    decreases |b|
  {
    if b == [] {
      assert a + [e] + b == a + [e];
      assert a + b == a;
      LastOfAppend(a, e, currency);
    } else {
      var b', x := b[..|b| - 1], b[|b| - 1];
      var s', t' := a + [e] + b', a + b';
      assert a + [e] + b == s' + [x];
      assert a + b == t' + [x];
      LastOfAppend(s', x, currency);
      LastOfAppend(t', x, currency);
      if x.currency != currency {
        LastOfIgnores(a, e, b', currency);
      }
    }
  }

  /** Moves an index at or past `at` one place to the right. */
  function Shift(k: Option<nat>, at: nat): Option<nat>
  {
    match k
    case None => None
    case Some(i) => Some(if i < at then i else i + 1)
  }

  /** Lines for currencies other than the ticker and KRW change nothing in the
      result of the scan. */
  lemma OtherCurrenciesIgnored(a: seq<Entry>, e: Entry, b: seq<Entry>, ticker: string)
    requires e.currency != ticker && e.currency != KRW
    ensures Snapshot(a + [e] + b, ticker) == Snapshot(a + b, ticker)
  {
    var s, t := a + [e] + b, a + b;
    LastOfIgnores(a, e, b, ticker);
    LastOfIgnores(a, e, b, KRW);
    match LastOf(t, KRW)
    case None =>
    case Some(c) =>
      SameEntryAfterShift(a, e, b, c);
      match LastOf(t, ticker)
      case None =>
      case Some(k) =>
        SameEntryAfterShift(a, e, b, k);
  }

  /** Index `k` of `a + b` and its shifted index in `a + [e] + b` hold the same line. */
  lemma SameEntryAfterShift(a: seq<Entry>, e: Entry, b: seq<Entry>, k: nat)
    requires k < |a| + |b|
    ensures (a + [e] + b)[if k < |a| then k else k + 1] == (a + b)[k]
  {
  }

  /** A later line of the ticker overrides every earlier one: the last match wins. */
  lemma LastTickerLineWins(accounts: seq<Entry>, e: Entry, ticker: string)
    requires e.currency == ticker && ticker != KRW
    requires Snapshot(accounts, ticker).Success?
    ensures Snapshot(accounts + [e], ticker) ==
      Success(Snapshot(accounts, ticker).value.(
        held := On, price := Trunc(e.avgBuyPrice), amount := Trunc(e.balance)))
  {
    LastOfAppend(accounts, e, ticker);
    LastOfAppend(accounts, e, KRW);
    assert (accounts + [e])[|accounts|] == e;
    var c := LastOf(accounts, KRW).value;
    assert (accounts + [e])[c] == accounts[c];
  }

  /** A later KRW line overrides the balance of every earlier one; unless the
      ticker is KRW itself, the flag, price and amount stay those of the earlier
      lines. */
  lemma LastKrwLineWins(accounts: seq<Entry>, e: Entry, ticker: string)
    requires e.currency == KRW
    ensures Snapshot(accounts + [e], ticker).Success?
    ensures Snapshot(accounts + [e], ticker).value.balance == Trunc(e.balance)
    ensures ticker != KRW ==>
      var v := Snapshot(accounts + [e], ticker).value;
      match LastOf(accounts, ticker)
      case None => v.held == Off && v.price == 0 && v.amount == 0
      case Some(k) =>
        && v.held == On
        && v.price == Trunc(accounts[k].avgBuyPrice)
        && v.amount == Trunc(accounts[k].balance)
  {
    LastOfAppend(accounts, e, ticker);
    if LastOf(accounts, ticker).Some? {
      var k := LastOf(accounts, ticker).value;
      assert (accounts + [e])[k] == accounts[k];
    }
    LastOfAppend(accounts, e, KRW);
    assert (accounts + [e])[|accounts|] == e;
  }
}
