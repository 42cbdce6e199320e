# Upbit trade relay: the decision layer

The repository is a single HTTP-triggered function, `upbit_trade`, that reads the
caller's Upbit account, gathers market data, asks a language model whether to buy,
sell or hold a ticker, and places at most one market order on the KRW market.
This project models the deterministic part of that handler in Dafny:

- the account scan of `getPositionAndPriceAndBalance` (module `Account`): one pass
  over the account lines that keeps the last line of the ticker and the last KRW
  line, truncating the numbers to integers as Python's `int()` does, and fails when
  there is no KRW line (the balance variable is never bound);
- the trade decision (module `Decision`): the `BBUUYY` / `SSEELLLL` / `HHOOLLDD`
  sentinel tests with their strict affordability guards, checked in order, and the
  `buyAble` / `sellAble` status labels;
- the orders (module `Order`): the four-field parameter dictionaries of `buy` and
  `sell` and the `k=v&...` query string that is hashed into the order signature,
  with a reader of query strings as its partner;
- the handler (module `Handler`): scan, consult, decide, build at most one order and
  return the advisory text. The market-data queries and the language-model call are
  a parameter `consult` from the scanned position to the advisory text. The
  source's prompt reads only the price, amount and balance, not the `held` flag;
  since every property quantifies over all `consult` functions, letting it see the
  flag as well only admits more advisors than the source has.

Modules `Wrappers` (Option, Result) and `Text` (Python's `in` on strings, `split`
and `join`) are helpers.

The model follows the code: with no KRW line the scan fails instead of treating
the balance as zero, and held amounts are truncated to whole units before the sell
guard (`Handler.SellNeedsWholeUnit` states the consequence).

## Model

| member | source | states |
|---|---|---|
| `Account.Trunc` | hello-world-1/main.py:71-74 | `int()` of a float truncates toward zero: the result is within one unit of the input, on the side of zero |
| `Account.LastOf` | hello-world-1/main.py:68-74 | the index returned is a line of the currency after which no line of that currency follows; none exactly when no line has that currency |
| `Account.Snapshot` | hello-world-1/main.py:63-76 | the reference definition of the scan, last line of each currency wins: it fails exactly when no line is KRW, its flag is on exactly when some line has the ticker, and price and amount are 0 when none does |
| `Account.SnapshotMeaning` | hello-world-1/main.py:63-76 | the scan fails exactly when no line is KRW; the flag is on exactly when some line has the ticker; price and amount are 0 with no such line and otherwise come from the last one; the balance is the truncated balance of the last KRW line |
| `Account.GetPositionAndPriceAndBalance` | hello-world-1/main.py:63-76 | the overwriting loop yields exactly the last-match-wins snapshot, including the failure when no KRW line was seen |
| `Account.LastOfIgnores` | hello-world-1/main.py:68-74 | a line of another currency, inserted anywhere, does not change which line is the last of a currency (only shifts its index) |
| `Account.OtherCurrenciesIgnored` | hello-world-1/main.py:68-76 | lines whose currency is neither the ticker nor KRW change nothing in the scan's result |
| `Account.LastTickerLineWins` | hello-world-1/main.py:69-72 | for a ticker other than KRW, once a KRW line has been seen, a later ticker line overrides the flag, price and amount of every earlier one and leaves the balance alone |
| `Account.LastKrwLineWins` | hello-world-1/main.py:73-74 | a later KRW line makes the scan succeed with that line's balance, for every ticker; unless the ticker is KRW, flag, price and amount stay those of the earlier lines |
| `Decision.Decide` | hello-world-1/main.py:48-59 | BUY exactly when the text holds `BBUUYY` and balance > price; SELL exactly when that fails and the text holds `SSEELLLL` and amount > volume; HOLD exactly when both fail and `HHOOLLDD` is present; NO_ACTION otherwise |
| `Decision.BuyLabel` | hello-world-1/main.py:33 | the `buyAble` label reads "가능" exactly when balance > price |
| `Decision.SellLabel` | hello-world-1/main.py:34 | the `sellAble` label reads "가능" exactly when amount > volume |
| `Decision.DecideIsPriorityList` | hello-world-1/main.py:48-59 | the chain equals a first-passing-rule list in the order buy, sell, hold, with no action when no rule passes |
| `Decision.BuyWinsOverSell` | hello-world-1/main.py:48-55 | when both trade guards pass, the result is BUY whichever token comes first in the text |
| `Decision.ExactAmountsDoNotTrade` | hello-world-1/main.py:48-54 | a balance equal to the price never buys, whatever the holdings and volume; a holding equal to the volume never sells, whatever the balance and price |
| `Decision.UnaffordableBuyIsNoAction` | hello-world-1/main.py:48-59 | a buy token whose balance guard fails, with no other token, falls through to NO_ACTION |
| `Decision.MoreCashKeepsBuy` | hello-world-1/main.py:48 | raising the balance never withdraws a BUY |
| `Decision.LabelsMatchDecision` | hello-world-1/main.py:33-54 | with the buy token present, BUY is chosen exactly when `buyAble` reads "가능"; with the sell token and no buy token, SELL exactly when `sellAble` reads "가능" |
| `Decision.TradeImpliesLabel` | hello-world-1/main.py:33-54 | every chosen BUY or SELL was logged as possible |
| `Order.ParamsOf` | hello-world-1/main.py:161-166 | an order's dictionary has four entries: market `KRW-<ticker>`, side `bid` for a buy and `ask` for a sell, ord_type `price` for a buy and `market` for a sell, then `price` or `volume` with the order's amount text |
| `Order.QueryString` | hello-world-1/main.py:167 | the string is empty exactly when there are no parameters, and otherwise starts with the first `k=v` pair (read back in full by `Order.QueryRoundTrip`) |
| `Order.FormText` | hello-world-1/main.py:167 | `unquote(urlencode(...))` keeps every character of a name or value except the space, which becomes '+' |
| `Order.QueryRoundTrip` | hello-world-1/main.py:167 | reading the query string back gives the same parameters in the same order, for names and values without '&', '=' or spaces |
| `Order.SignedQueryMatchesBody` | hello-world-1/main.py:161-186 | when neither the ticker nor the amount text contains '&', '=' or a space, the hashed query string of an order lists exactly the parameters posted as its body, in the same order |
| `Order.BuyQueryText` | hello-world-1/main.py:160-167 | when neither the ticker nor the price text contains a space, a buy's query string is `market=KRW-<ticker>&side=bid&ord_type=price&price=<price>` |
| `Order.SellQueryText` | hello-world-1/main.py:189-196 | when neither the ticker nor the volume text contains a space, a sell's query string is `market=KRW-<ticker>&side=ask&ord_type=market&volume=<volume>` |
| `Handler.OrderFor` | hello-world-1/main.py:48-55 | an order exists exactly for BUY or SELL; a BUY gives a bid at the requested price text, a SELL an ask for the requested volume text, both for the requested ticker |
| `Handler.Respond` | hello-world-1/main.py:17-61 | the request fails exactly when the account has no KRW line; otherwise the body is the advisory text for the scanned position, the action is the decision on it, and the order is the one that action places |
| `Handler.UpbitTrade` | hello-world-1/main.py:17-61 | the handler, running the scan loop first, produces exactly that outcome |
| `Handler.EchoesAdviceAndTradesAtMostOnce` | hello-world-1/main.py:48-61 | whenever the scan succeeds, the body is the advisory text whichever action is taken; an order is placed exactly for BUY or SELL, a bid only when the text holds `BBUUYY`, an ask only when it holds `SSEELLLL` |
| `Handler.SellNeedsWholeUnit` | hello-world-1/main.py:52-72 | because held amounts are truncated, a SELL of a non-negative volume needs a last ticker line holding at least one whole unit |
| `Handler.ScenarioBuy` | hello-world-1/main.py:48-50 | `BBUUYY because...` with 2,000,000 KRW against a price of 1,000,000 places a price-type bid for BTC at "1000000" |
| `Handler.ScenarioSellRefused` | hello-world-1/main.py:52-59 | `SSEELLLL...` with 0.005 BTC held (truncated to 0) and volume 0.01 takes no action |
| `Handler.ScenarioHold` | hello-world-1/main.py:56-61 | `HHOOLLDD, market is flat` holds, places no order and echoes the text |
| `Handler.ScenarioEmptyAccount` | hello-world-1/main.py:63-76 | an empty account list fails the request |

## Left out

- The HTTP plumbing (`request.get_json()`), the environment variables and the `print` logging, including the prompt text; the labels are modelled but not the log line they appear in.
- Every network call: the account query, the ticker, candle and order-book queries, the chat-completion call, and the order submission with its pass-through response. The advisory text is the value of the `consult` parameter.
- JWT signing, SHA-512 hashing and UUID nonces (`getMyAccount`, and the payloads of `buy` and `sell`): foreign library calls. The model stops at the query string that is hashed.
- Parsing the account fields from text to floats: an `Entry` holds the parsed numbers as reals, and only the `int()` truncation is modelled. NaN and infinite values are not modelled.
- Python's `str()` rendering of the request's price and volume: a `Number` carries its value and its text side by side, and the text is taken as given. The order body posts the number itself, the model its text.
- Requests whose price or volume is not a number, and missing request fields, which raise in Python. Also the non-finite values `NaN`, `Infinity` and `-Infinity`, which Python's JSON reader accepts as a price or volume and which a `real` cannot hold; with volume `-Infinity` the sell guard passes for any holding, which the model does not capture.
- Order.QueryRoundTrip: stated only for names and values without '&', '=' or spaces, because the query string does not escape those characters and cannot be read back unambiguously when they occur.
- Order.SignedQueryMatchesBody: stated only when the ticker and amount text contain no '&', '=' or space. Outside that domain the hashed string and the posted body differ: for ticker "A B" the hashed string carries `market=KRW-A+B` while the body posts `KRW-A B`, and '&' or '=' in a value makes the hashed string ambiguous.
