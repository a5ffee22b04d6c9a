# pynance ledger and card validator, modelled in Dafny

pynance is a small Flask/SQLite stock-trading site: a user registers with
10000.00 of play cash, buys and sells shares at quoted prices, and tops up
the cash with a card number. This project models two sequential cores of
it as pure functions over immutable data and proves properties of them.

- **The ledger** (`Ledger`, `Stocks`, `Quotes`, `Accounts`). One user's
  state is an `Account`: cash, password hash, the `stocks` rows as a
  sequence of `Holding(symbol, amount)`, and the `transactions` rows as an
  append-only log of `Trade(symbol, shares, price)`. `Buy`, `Sell` and
  `AddCash` are the POST handlers `buy`, `sell` and `add_cash` as
  transitions returning `Ok(newAccount)` or `Err(rejection)`. Every check
  of these handlers runs before the first write, so an `Err` leaves the
  account as it was. The `stocks` schema has no uniqueness constraint, so
  the rows are a sequence and "one row per symbol" is an invariant the
  handlers must keep (`Ledger.Valid`). `buy` stores the upper-cased symbol
  `lookup` returns, and `sell` matches rows by the symbol as typed. `sell`
  reads the first matching row but its `UPDATE`/`DELETE` hit every
  matching row (`Stocks.SellRows`). `Register` and the `good_pass` policy
  create users.
- **The card check** (`Card`). `credit_verify` is modelled as written: the
  digit loop, the length test, the `first`/`second` choice, the issuer
  tests (with the chained assignment on helpers.py line 52), and the
  Luhn mod-10 check of ISO/IEC 7812-1, Annex B. The card-string
  sanitiser of `add_cash` is modelled too.
- **Support**: `Strings` holds Python's `int(str)`, `str(n)` and
  `str.upper()` (ASCII part). `Apology` holds the `escape` rewriter of
  `apology`.

Money is an exact `real` and share counts are unbounded `int`s (see
`Ledger.Buy` under Left out). Quotes come from
oracles passed as parameters. `feed` is what the HTTP request and CSV
parse of `lookup` yield for the submitted symbol, and may be missing.
`price` is the price the quote retry loops settle on, so it is total.
The password hash check and `generate_password_hash` are the parameters
`verify` and `hashOf`.

The model keeps four behaviours of the code as they are:
- the schema has no uniqueness constraint on (user, symbol);
- `add_cash` does not check the sign of the amount, so cash can go down
  or below zero;
- `sell` and the index page have no "quote unavailable" refusal, because
  the code retries until a quote arrives (app.py:92-93 and 453-455);
- the VISA test is a chained assignment rather than a comparison (see
  Findings).

## Model

| member | source | states |
|---|---|---|
| Strings.DigitsOnly | app.py:136 | The digit subsequence has only digits, is no longer than the input, and is empty exactly when the input has no digit. |
| Strings.DecimalRoundTrip | app.py:136 | Reading back the shortest numeral of n gives n. |
| Strings.ParseIntRoundTrip | app.py:177 | `int(str(k)) == k` for every integer k, negative ones included (no 4300-digit limit; see Left out). |
| Strings.UpperIsCanonical | helpers.py:111 | An upper-cased symbol has no lower-case letter left, and upper-casing it again changes nothing. |
| Strings.UpperFixesOnlyCanonical | helpers.py:111 | A string is its own upper-case form exactly when it has no lower-case letter. |
| Quotes.Lookup | helpers.py:74-115 | A symbol starting with `^` or containing `,` gets no quote whatever the feed says. Otherwise there is a quote exactly when the feed answers. A quote carries the feed's price and the upper-cased symbol. |
| Quotes.LookupSymbolIsCanonical | helpers.py:78-111 | The symbol a quote carries is as long as the input, is upper case, and itself passes the caret/comma filter. |
| Card.Digits | helpers.py:29-41 | The digits the loop peels off are each below 10 and have no leading zero. There are none exactly when the number is 0. |
| Card.FromDigitsOfDigits | helpers.py:29-41 | The digits the loop peels off are the number's own decimal digits: reading them back, least significant first, gives the number. |
| Card.DigitsOfFromDigits | helpers.py:29-41 | Peeling the digits off the number built from a digit list gives the list back. |
| Card.EvensOddsShape | helpers.py:31-39 | `evens` holds the digits at positions 0, 2, 4, … and `odds` those at 1, 3, 5, … (from the right), with lengths ⌈k/2⌉ and ⌊k/2⌋. |
| Card.DoubledPartsSum | helpers.py:33-37 | An odd-position digit d adds to `n_odds` parts summing to the digit sum of 2d, which is 2d when d < 5 and 2d − 9 otherwise. |
| Card.CollectDigits | helpers.py:26-41 | The loop visits each decimal digit once, least significant first. It counts them, and its three lists equal the reference `Evens`, `Odds` and `NOdds` of the digit sequence. |
| Card.CollectOne | helpers.py:30-39 | One pass of the loop body extends `evens`, `odds` and `n_odds` exactly as the reference lists grow by one more digit. |
| Card.DoubleDigit | helpers.py:33-37 | The inner step on an odd-position digit emits the decimal digits of its double, units first. Each part is below 10, and read back they give 2·digit. They sum to the digit sum of 2·digit. There is one part below 5 and two from 5 on. |
| Card.ChecksumIsLuhnTotal | helpers.py:56 | `sum(evens) + sum(n_odds)` equals the reference Luhn total of the digits. |
| Card.Leading | helpers.py:46-49 | `first` and `second` are the most and second-most significant digits, whichever list is longer. |
| Card.CreditVerify | helpers.py:43-44 | A number is accepted only if it has 13, 15 or 16 digits, so 0 (no digits) is refused. |
| Card.CreditVerifyAsWritten | helpers.py:24-57 | As written, a number is accepted exactly when it is Luhn-valid and either has 13 or 16 digits or is 15 digits led by 34 or 37. The MASTERCARD test never decides anything. |
| Card.Classify | helpers.py:51-57 | The intended classifier: AMEX, VISA (13 or 16 digits led by 4) and MASTERCARD (16 digits led by 51–55), each exactly on the Luhn-valid numbers of its pattern. |
| Card.IntendedAcceptedAsWritten | helpers.py:51-57 | Every number the intended classifier accepts, the code also accepts. |
| Card.AsWrittenIgnoresLeadingDigits | helpers.py:52 | For 13- and 16-digit numbers, the code's verdict depends only on Luhn validity, not on the leading digits. |
| Card.AsWrittenAcceptsNonNetwork | helpers.py:52 | A number with the digits of 6011 1111 1111 1117 is accepted by the code and refused by the intended classifier. |
| Card.AsWrittenAcceptsNonNetworkNumber | helpers.py:52 | Such a number exists: it is built from its digits, and the discrepancy holds for it. |
| Card.CardValue | app.py:136 | The number read from a card string is missing (`int('')` raises) exactly when the string has no digit. |
| Card.CardValueIgnoresSeparators | app.py:133-136 | A hyphen or space anywhere in the card string does not change the number read. |
| Card.CardValueOfNumeral | app.py:136 | The numeral of n reads back as n. |
| Apology.ReplaceChar | helpers.py:19 | When the replacement does not contain the target, no target survives. |
| Apology.ReplaceCharDistributes | helpers.py:19 | `str.replace` of one character distributes over concatenation. |
| Apology.EscapeDistributes | helpers.py:17-19 | The eight sequential replacements distribute over concatenation. |
| Apology.EscapeOneChar | helpers.py:17-19 | On a single character, the eight passes give that character's own rewrite. |
| Apology.EscapeIsPerCharacter | helpers.py:17-20 | The eight passes in their order equal a per-character rewrite: a space becomes a single `-`, a `-` becomes `--`, `?` becomes `~q`, and so on. |
| Apology.EscapeIsUrlSafe | helpers.py:17-20 | The escaped text contains no space, `?`, `%`, `#`, `/` or `"`. |
| Apology.EscapeNotInjective | helpers.py:17-18 | `?` and `~q` escape to the same text, so the message cannot be recovered. |
| Stocks.FindRow | app.py:440-441 | The row `sell` reads is the first with the symbol, and there is none exactly when no row has it. |
| Stocks.UpsertHeld | app.py:219-231 | `buy`'s upsert raises the held amount of its symbol by the shares and leaves every other symbol's held amount alone. |
| Stocks.UpsertKeepsOthers | app.py:219-231 | The upsert leaves the rows of other symbols, their contents and their order unchanged. |
| Stocks.UpsertKeepsUnique | app.py:219-231 | The upsert keeps one row per symbol. |
| Stocks.UpsertKeepsPositive | app.py:219-231 | The upsert of a positive number of shares keeps every amount positive. |
| Stocks.DeleteAll | app.py:468 | After the `DELETE`, no row has the symbol and the table is no longer. |
| Stocks.DeleteAllSubset | app.py:468 | The `DELETE` keeps only rows that were there. |
| Stocks.DeleteAllHeld | app.py:468 | The `DELETE` zeroes the symbol's held amount and keeps every other symbol's, even when the table has duplicates. |
| Stocks.DeleteAllKeepsUnique | app.py:468 | The `DELETE` keeps one row per symbol. |
| Stocks.DeleteAllKeepsPositive | app.py:468 | The `DELETE` keeps every amount positive. |
| Stocks.SetAll | app.py:472-473 | The all-rows `UPDATE` keeps the number of rows and every row's symbol. |
| Stocks.SetAllHeld | app.py:472-473 | The `UPDATE` gives the symbol the new amount when it has a row and keeps every other symbol's held amount. |
| Stocks.SetAllKeepsOthers | app.py:472-473 | The `UPDATE` leaves the rows of other symbols unchanged. |
| Stocks.SetAllKeepsPositive | app.py:472-473 | An `UPDATE` to a positive amount keeps every amount positive. |
| Stocks.SellRowsEffect | app.py:466-473 | `sell`'s write lowers the symbol's held amount by the shares sold and no other, and leaves other symbols' rows alone. A sell-out leaves no row for the symbol. |
| Stocks.SellUndoesNewRow | app.py:221-224 | When a symbol had no row, the row `buy` inserts is the first for it, and selling all of it gives back the table from before the purchase. |
| Stocks.SetAllUnique | app.py:472-473 | With one row per symbol, the all-rows `UPDATE` rewrites exactly the row `sell` read. |
| Stocks.DeleteAllUnique | app.py:468 | With one row per symbol, the all-rows `DELETE` removes exactly the row `sell` read. |
| Stocks.DeleteAllIdempotent | app.py:468 | Deleting a symbol's rows twice is the same as once. |
| Ledger.Buy | app.py:170-235 | An accepted purchase has a shares field parsing to n > 0, a symbol, and a quote. Its cost n·price does not exceed the cash; the cash drops by exactly that cost. The hash is kept, and the log gains (upper-cased symbol, +n, price). |
| Ledger.BuyHoldings | app.py:219-231 | An accepted purchase raises the held amount of the stored symbol by n and of no other, and keeps every other symbol's rows. |
| Ledger.BuyAcceptedIff | app.py:174-208 | `buy` goes through exactly when the shares parse to an integer > 0, a symbol is given, `lookup` answers, and cash ≥ n·price. |
| Ledger.BuyBeyondCashRefused | app.py:207-208 | A purchase costing more than the cash is refused as unaffordable. |
| Ledger.BuyExactCash | app.py:207-212 | A purchase costing exactly the cash is accepted and leaves cash 0. |
| Ledger.Sell | app.py:422-477 | An accepted sale has both fields filled, shares n > 0, and a row for the symbol as typed holding at least n. The cash rises by exactly n·price, the hash is kept, and the log gains (symbol, −n, price). |
| Ledger.SellHoldings | app.py:440-473 | An accepted sale lowers the symbol's held amount by n and no other, keeps other symbols' rows, and removes the symbol's rows when all of it is sold. |
| Ledger.SellAcceptedIff | app.py:425-447 | `sell` goes through exactly when both fields are filled, shares parse to n > 0, and the first row for the symbol holds a non-zero amount ≥ n. |
| Ledger.SellBeyondHoldingRefused | app.py:445-447 | Selling more shares than the row holds is refused. |
| Ledger.SellNeedsStoredCase | app.py:440 | On a valid ledger, a symbol containing a lower-case letter sells nothing, because `buy` stored it upper case. |
| Ledger.SellWholeRow | app.py:462-468 | Selling exactly the first row's amount credits the proceeds, deletes the symbol's rows and logs the sale. |
| Ledger.AddCash | app.py:117-161 | A deposit is accepted only if all fields are filled and the card string passes the charset test. The number read must pass `credit_verify`, the password must verify, and `int(cash)` must parse. Only the cash then changes, by exactly `int(cash)`. |
| Ledger.AddCashCardBeforePassword | app.py:133-143 | When the card is refused, the deposit fails whatever the password check would say. |
| Ledger.AddCashAccepts | app.py:143-147 | A deposit passing every check adds the parsed amount to the cash and changes nothing else. |
| Ledger.AddCashCanWithdraw | app.py:147 | There is no sign check: depositing a negative amount is accepted and lowers the cash. |
| Ledger.NetSharesAppend | app.py:216-217 | A new log entry changes the net shares of its own symbol by its signed shares, and of no other symbol. |
| Ledger.BuyPreservesValid | app.py:216-231 | A purchase keeps the invariant. That is: one row per symbol, positive amounts, canonical symbols, and per-symbol net logged shares equal to the held amount. |
| Ledger.SellPreservesValid | app.py:462-473 | A sale keeps the same invariant, although its `UPDATE`/`DELETE` hit every row with the symbol. |
| Ledger.SellRowsValid | app.py:466-473 | Selling 0 < n ≤ available shares keeps the rows valid. |
| Ledger.AddCashPreservesValid | app.py:147 | A deposit keeps the invariant. |
| Ledger.BuyThenSellRestores | app.py:211-231 | Buying n of a symbol not held, then selling n of it at the same price, restores the cash and the rows and leaves no row. The log grows by exactly the two trades. |
| Ledger.HoldingsValueConcat | app.py:85-100 | The portfolio value of two tables together is the sum of their values. |
| Ledger.BuyKeepsTotal | app.py:80-104 | A purchase at the price the portfolio is valued at leaves the grand total `index` shows unchanged. |
| Ledger.SellKeepsTotal | app.py:80-104 | On a table with one row per symbol, a sale at the valuation price leaves the grand total unchanged. |
| Accounts.CheckPassword | app.py:73 | A one-pass scan accepts exactly the passwords `good_pass` fullmatches. Those are 8–30 characters with no newline, a digit, a lower-case and an upper-case letter. |
| Accounts.NewAccount | app.py:54 | A new user's ledger satisfies the ledger invariant. |
| Accounts.Register | app.py:376-412 | Registration is accepted only if the form is filled, the two passwords agree, the policy holds and the name is free. It then appends exactly one user, keeps the others, and gives the new user 10000.00 cash, the hash of the password, no rows and an empty transaction log. |
| Accounts.RegisterAcceptedIff | app.py:385-400 | Registration succeeds exactly when those four checks pass. |
| Accounts.RegisterKeepsUnique | app.py:397-404 | Registering keeps every login name distinct. |
| Accounts.RegisteredValid | app.py:403-404 | The newly registered user's ledger satisfies the ledger invariant. |

## Left out

- Flask routing, `session`, `login_required`, `flash`, `redirect`, `render_template`, the response headers and the error handler: web plumbing with no ledger logic. The routes `login`, `logout`, `change_pass`, `quote` and `history` and the GET forms are out for the same reason.
- SQLite and the CS50 `SQL` wrapper: replaced by the in-memory `Account` and `seq<User>`. The handlers' several writes are not atomic, and concurrent requests can interleave them; both are out because the model applies a handler as one step.
- Ledger.Buy: share counts are unbounded here. `Stocks.Holding.amount`, `Ledger.Trade.shares` and the parsed `n` of `Ledger.Buy` and `Ledger.Sell` are `int`s. In the program they are SQLite `INTEGER` columns (app.py:60 and 69), which hold at most 2^63 − 1. `add_cash` puts no upper bound on a deposit (app.py:147), so a buy past that bound is reachable. Beyond it the program does not store the count exactly: the write fails or the value is rounded. So `Ledger.LogBalanced`, the sell guards of app.py:441-446 and `Ledger.BuyThenSellRestores` hold in the program only while every count and amount stays below 2^63.
- Werkzeug password hashing: `check_password_hash` is the parameter `verify`, and `generate_password_hash` is the parameter `hashOf`.
- `lookup`'s HTTP request and CSV parsing: replaced by the oracle `feed` (for `buy`) and `price` (for `sell` and `index`).
- The unbounded quote retry loops at app.py:92-93 and 453-455: modelled as the total oracle `price`. The model does not say what happens when no quote ever arrives.
- Floating point: prices and cash are exact reals. Rounding, NaN and infinities are not modelled, and neither is the `usd` formatting at helpers.py:118-120.
- `datetime` timestamps of the log: omitted.
- Strings.ParseInt: has no 4300-digit limit. Python's `int(str)` and `str(int)` raise `ValueError` beyond 4300 digits (`sys.int_info.default_max_str_digits`), so for such inputs `Ledger.AddCash` accepts a deposit and `Card.CardValue` reads a number where the program raises. `Strings.ParseIntRoundTrip` holds only up to that limit in Python. The limit is an interpreter setting, not part of the application's logic.
- Non-ASCII text: `int()` whitespace and digits, `\d` in the password pattern, and `str.upper()` are modelled on their ASCII part only.
- The `index` page rendering: only its grand total (`Ledger.Total`) is modelled.
- Ledger.BuyKeepsTotal: holds with exact reals only; with floats the total can drift by rounding.
- Ledger.SellKeepsTotal: needs one row per symbol. With duplicate rows, the all-rows `UPDATE`/`DELETE` changes rows beyond the one read, so the total can change; `Valid` rules this out.
- Ledger.AddCash: models the card check as written (`Card.CreditVerify`), since that is what the program does; the corrected `Card.Classify` is not wired into the ledger.

## Findings

| source | as written | input that shows it | evidently intended | confidence | as-written member | corrected member |
|---|---|---|---|---|---|---|
| helpers.py:52 | `visa = first = 4 and (digits == 13 or digits == 16)` binds both `visa` and `first` to the length test. VISA then holds for every 13- or 16-digit number, and `first == 5` on line 53 compares a bool with 5, so MASTERCARD never holds. | 6011111111111117: 16 digits, Luhn-valid, led by 6, issued by none of the three networks; it is accepted. | `visa = first == 4 and (digits == 13 or digits == 16)`, so VISA needs a leading 4 and MASTERCARD is reachable. | not executed | Card.AsWrittenAcceptsNonNetworkNumber | Card.Classify |

`Card.CreditVerify` and `Card.CreditVerifyAsWritten` give the as-written
behaviour. `Card.Classify` proves that the corrected classifier accepts
exactly the Luhn-valid numbers of each issuer's pattern.
`Card.IntendedAcceptedAsWritten` shows that the code accepts a superset of
what the corrected classifier does.
