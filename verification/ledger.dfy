/** One user's ledger in app.py and the three handlers that change it,
    `buy`, `sell` and `add_cash`, as pure transitions. Every check of these
    handlers runs before their first database write, so a refused request
    is an `Err` and leaves the account as it was. */
module Ledger {
  import opened Results
  import opened Strings
  import opened Stocks
  import Quotes
  import Card

  /** A row of the `transactions` table: positive shares for a purchase,
      negative for a sale. The timestamp is not modelled. */
  datatype Trade = Trade(symbol: string, shares: int, price: real)

  /** The `users` row of the logged-in user with its `stocks` rows and its
      `transactions` rows in insertion order. */
  datatype Account = Account(cash: real, hash: string, holdings: seq<Holding>, log: seq<Trade>)

  /** Why a request was refused: the apology or flash message it gets. */
  datatype Rejection =
    | FillShares          // buy: "Fill shares" (no shares field)
    | SharesNotNumeric    // buy: "Numeric shares only"
    | MissingSymbol       // buy: "not symbol"
    | SharesNotPositive   // buy: "not positive shares", sell: "positive numbers only"
    | SymbolNotFound      // buy: "symbol 404"
    | CannotAfford        // buy: "u poor"
    | FillInfo            // sell and add_cash: "fill info"
    | SharesNotInteger    // sell: "enter an integer"
    | NoStocks            // sell: "somehow no stocks"
    | NotEnoughShares     // sell: "you don't have that many"
    | BadCardCharset      // add_cash: only numbers, spaces and hyphens
    | CardWithoutDigits   // add_cash: `int('')` raises on a card of separators only
    | InvalidCard         // add_cash: "Invalid card number"
    | IncorrectPassword   // add_cash: "Incorrect password"
    | CashNotInteger      // add_cash: `int(cash)` raises

  /** What `shares` shares come to at `price` a share. */
  function Worth(shares: int, price: real): real {
    shares as real * price
  }

  /** Python's truth value of a form field: present and non-empty. */
  predicate Filled(field: Option<string>) {
    field.Some? && field.value != ""
  }

  /** `buy` (POST). The quote comes from `lookup` on the submitted symbol;
      the stored symbol is the upper-cased one it returns. */
  function Buy(acct: Account, symbol: Option<string>, shares: Option<string>,
               feed: string -> Option<real>): (r: Result<Account, Rejection>)
    ensures r.Ok? ==>
      && Filled(symbol) && shares.Some? && ParseInt(shares.value).Some?
      && Quotes.Lookup(symbol.value, feed).Some?
      && var n, q := ParseInt(shares.value).value, Quotes.Lookup(symbol.value, feed).value;
         && n > 0
         && acct.cash >= Worth(n, q.price)
         && r.value.cash == acct.cash - Worth(n, q.price)
         && r.value.hash == acct.hash
         && r.value.log == acct.log + [Trade(Upper(symbol.value), n, q.price)]
  {
    if shares.None? then Err(FillShares)
    else match ParseInt(shares.value)
      case None => Err(SharesNotNumeric)
      case Some(n) =>
        if !Filled(symbol) then Err(MissingSymbol)
        else if n <= 0 then Err(SharesNotPositive)
        else match Quotes.Lookup(symbol.value, feed)
          case None => Err(SymbolNotFound)
          case Some(q) =>
            var cost := Worth(n, q.price);
            if acct.cash < cost then Err(CannotAfford)
            else
              Ok(Account(acct.cash - cost, acct.hash,
                         Upsert(acct.holdings, q.symbol, n),
                         acct.log + [Trade(q.symbol, n, q.price)]))
  }

  /** `sell` (POST). The row is looked up by the symbol as submitted, and the
      quote loop is taken to succeed: `price` is the price it settles on. */
  function Sell(acct: Account, symbol: Option<string>, shares: Option<string>,
                price: string -> real): (r: Result<Account, Rejection>)
    ensures r.Ok? ==>
      && Filled(symbol) && Filled(shares) && ParseInt(shares.value).Some?
      && var s, n := symbol.value, ParseInt(shares.value).value;
         && n > 0
         && FindRow(acct.holdings, s).Some?
         && HeldAmount(acct.holdings, s) >= n
         && r.value.cash == acct.cash + Worth(n, price(s))
         && r.value.hash == acct.hash
         && r.value.log == acct.log + [Trade(s, -n, price(s))]
  {
    if !(Filled(symbol) && Filled(shares)) then Err(FillInfo)
    else match ParseInt(shares.value)
      case None => Err(SharesNotInteger)
      case Some(n) =>
        if n <= 0 then Err(SharesNotPositive)
        else match FindRow(acct.holdings, symbol.value)
          case None => Err(NoStocks)
          case Some(i) =>
            var available := acct.holdings[i].amount;
            if available == 0 then Err(NoStocks)
            else if available < n then Err(NotEnoughShares)
            else
              var s := symbol.value;
              var p := price(s);
              Ok(Account(acct.cash + Worth(n, p), acct.hash, SellRows(acct.holdings, s, available, n),
                         acct.log + [Trade(s, -n, p)]))
  }

  /** A purchase adds the shares to the held amount of the stored symbol,
      and to no other, and keeps every other symbol's rows as they were. */
  lemma BuyHoldings(acct: Account, symbol: Option<string>, shares: Option<string>,
                    feed: string -> Option<real>)
    requires Buy(acct, symbol, shares, feed).Ok?
    ensures var r := Buy(acct, symbol, shares, feed).value;
      var u, n := Upper(symbol.value), ParseInt(shares.value).value;
      && (forall x :: HeldAmount(r.holdings, x) == HeldAmount(acct.holdings, x) + (if x == u then n else 0))
      && DeleteAll(r.holdings, u) == DeleteAll(acct.holdings, u)
  {
    var u, n := Upper(symbol.value), ParseInt(shares.value).value;
    assert Buy(acct, symbol, shares, feed).value.holdings == Upsert(acct.holdings, u, n);
    UpsertKeepsOthers(acct.holdings, u, n);
    UpsertHeldAll(acct.holdings, u, n);
  }

  /** A sale lowers the held amount of the submitted symbol by the shares,
      and no other, keeps every other symbol's rows, and removes the
      symbol's rows when all its shares go. */
  lemma SellHoldings(acct: Account, symbol: Option<string>, shares: Option<string>,
                     price: string -> real)
    requires Sell(acct, symbol, shares, price).Ok?
    ensures var r := Sell(acct, symbol, shares, price).value;
      var s, n := symbol.value, ParseInt(shares.value).value;
      && (forall x :: HeldAmount(r.holdings, x) == HeldAmount(acct.holdings, x) - (if x == s then n else 0))
      && DeleteAll(r.holdings, s) == DeleteAll(acct.holdings, s)
      && (HeldAmount(acct.holdings, s) == n ==> FindRow(r.holdings, s).None?)
  {
    var s, n := symbol.value, ParseInt(shares.value).value;
    var i := FindRow(acct.holdings, s).value;
    assert Sell(acct, symbol, shares, price).value.holdings == SellRows(acct.holdings, s, acct.holdings[i].amount, n);
    SellRowsEffect(acct.holdings, s, i, n);
  }

  /** `add_cash`. The card string passes the charset test, the number read
      from it passes `credit_verify`, the password matches the stored hash
      under `verify`, and only then is `int(cash)` added, whatever its sign. */
  function AddCash(acct: Account, cash: Option<string>, credit: Option<string>,
                   password: Option<string>, verify: (string, string) -> bool): (r: Result<Account, Rejection>)
    ensures r.Ok? ==>
      && Filled(cash) && Filled(credit) && Filled(password)
      && Card.CardCharsetOk(credit.value)
      && Card.CardValue(credit.value).Some?
      && Card.CreditVerify(Card.CardValue(credit.value).value)
      && verify(acct.hash, password.value)
      && ParseInt(cash.value).Some?
      && r.value == acct.(cash := acct.cash + ParseInt(cash.value).value as real)
  {
    if !(Filled(cash) && Filled(credit) && Filled(password)) then Err(FillInfo)
    else if !Card.CardCharsetOk(credit.value) then Err(BadCardCharset)
    else match Card.CardValue(credit.value)
      case None => Err(CardWithoutDigits)
      case Some(number) =>
        if !Card.CreditVerify(number) then Err(InvalidCard)
        else if !verify(acct.hash, password.value) then Err(IncorrectPassword)
        else match ParseInt(cash.value)
          case None => Err(CashNotInteger)
          case Some(k) => Ok(acct.(cash := acct.cash + k as real))
  }

  /** Net signed shares the log records for `symbol`. */
  function NetShares(log: seq<Trade>, symbol: string): int {
    if |log| == 0 then 0
    else
      var last := log[|log| - 1];
      NetShares(log[..|log| - 1], symbol) + (if last.symbol == symbol then last.shares else 0)
  }

  lemma NetSharesAppend(log: seq<Trade>, t: Trade)
    ensures forall x :: NetShares(log + [t], x)
                          == NetShares(log, x) + (if t.symbol == x then t.shares else 0)
  {
    assert (log + [t])[..|log|] == log;
  }

  /** Stored symbols are what a successful `lookup` returns: non-empty, upper
      case, and free of the caret and comma `lookup` refuses. */
  predicate CanonicalSymbols(rows: seq<Holding>) {
    forall i :: 0 <= i < |rows| ==>
      |rows[i].symbol| > 0 && Upper(rows[i].symbol) == rows[i].symbol
      && !Quotes.RejectedLocally(rows[i].symbol)
  }

  /** For every symbol, the log's net shares equal the held amount. */
  ghost predicate LogBalanced(acct: Account) {
    forall x :: NetShares(acct.log, x) == HeldAmount(acct.holdings, x)
  }

  /** The ledger invariant: one row per symbol, every stored amount
      positive, canonical symbols, and a log that accounts for the rows. */
  ghost predicate Valid(acct: Account) {
    RowsValid(acct.holdings) && LogBalanced(acct)
  }

  /** The part of the invariant about the rows alone. */
  predicate RowsValid(rows: seq<Holding>) {
    UniqueSymbols(rows) && PositiveAmounts(rows) && CanonicalSymbols(rows)
  }

  lemma BuyPreservesValid(acct: Account, symbol: Option<string>, shares: Option<string>,
                          feed: string -> Option<real>)
    requires Valid(acct)
    requires Buy(acct, symbol, shares, feed).Ok?
    ensures Valid(Buy(acct, symbol, shares, feed).value)
  {
    var next := Buy(acct, symbol, shares, feed).value;
    var n := ParseInt(shares.value).value;
    var q := Quotes.Lookup(symbol.value, feed).value;
    Quotes.LookupSymbolIsCanonical(symbol.value, feed);
    assert next.holdings == Upsert(acct.holdings, q.symbol, n);
    UpsertKeepsUnique(acct.holdings, q.symbol, n);
    UpsertKeepsPositive(acct.holdings, q.symbol, n);
    NetSharesAppend(acct.log, Trade(q.symbol, n, q.price));
    BuyHoldings(acct, symbol, shares, feed);
    match FindRow(acct.holdings, q.symbol)
    case None =>
    case Some(i) =>
      assert forall j :: 0 <= j < |next.holdings| ==> next.holdings[j].symbol == acct.holdings[j].symbol;
  }

  lemma SellPreservesValid(acct: Account, symbol: Option<string>, shares: Option<string>,
                           price: string -> real)
    requires Valid(acct)
    requires Sell(acct, symbol, shares, price).Ok?
    ensures Valid(Sell(acct, symbol, shares, price).value)
  {
    var next := Sell(acct, symbol, shares, price).value;
    var s, n := symbol.value, ParseInt(shares.value).value;
    NetSharesAppend(acct.log, Trade(s, -n, price(s)));
    SellHoldings(acct, symbol, shares, price);
    assert LogBalanced(next);
    var i := FindRow(acct.holdings, s).value;
    SellRowsValid(acct.holdings, s, acct.holdings[i].amount, n);
    assert next.holdings == SellRows(acct.holdings, s, acct.holdings[i].amount, n);
  }

  lemma SellRowsValid(rows: seq<Holding>, symbol: string, available: int, n: int)
    requires RowsValid(rows) && 0 < n <= available
    ensures RowsValid(SellRows(rows, symbol, available, n))
  {
    if available == n {
      SoldOutRowsValid(rows, symbol);
    } else {
      RemainderRowsValid(rows, symbol, available - n);
    }
  }

  lemma SoldOutRowsValid(rows: seq<Holding>, symbol: string)
    requires RowsValid(rows)
    ensures RowsValid(DeleteAll(rows, symbol))
  {
    DeleteAllKeepsUnique(rows, symbol);
    DeleteAllKeepsPositive(rows, symbol);
    DeleteAllKeepsCanonical(rows, symbol);
  }

  lemma RemainderRowsValid(rows: seq<Holding>, symbol: string, amount: int)
    requires RowsValid(rows) && amount > 0
    ensures RowsValid(SetAll(rows, symbol, amount))
  {
    SetAllKeepsUnique(rows, symbol, amount);
    SetAllKeepsPositive(rows, symbol, amount);
    SetAllKeepsCanonical(rows, symbol, amount);
  }

  lemma DeleteAllKeepsCanonical(rows: seq<Holding>, symbol: string)
    requires CanonicalSymbols(rows)
    ensures CanonicalSymbols(DeleteAll(rows, symbol))
  {
    var r := DeleteAll(rows, symbol);
    DeleteAllSubset(rows, symbol);
    forall j | 0 <= j < |r|
      ensures |r[j].symbol| > 0 && Upper(r[j].symbol) == r[j].symbol && !Quotes.RejectedLocally(r[j].symbol)
    {
      var k :| 0 <= k < |rows| && rows[k] == r[j];
    }
  }

  lemma SetAllKeepsCanonical(rows: seq<Holding>, symbol: string, amount: int)
    requires CanonicalSymbols(rows)
    ensures CanonicalSymbols(SetAll(rows, symbol, amount))
  {
    var r := SetAll(rows, symbol, amount);
    assert forall j :: 0 <= j < |r| ==> r[j].symbol == rows[j].symbol;
  }

  lemma AddCashPreservesValid(acct: Account, cash: Option<string>, credit: Option<string>,
                              password: Option<string>, verify: (string, string) -> bool)
    requires Valid(acct)
    requires AddCash(acct, cash, credit, password, verify).Ok?
    ensures Valid(AddCash(acct, cash, credit, password, verify).value)
  {
  }

  /** `buy` goes through exactly when the shares parse to a positive integer,
      a symbol is given, `lookup` answers, and the cash covers the cost. */
  lemma BuyAcceptedIff(acct: Account, symbol: Option<string>, shares: Option<string>,
                       feed: string -> Option<real>)
    ensures Buy(acct, symbol, shares, feed).Ok? <==>
      && shares.Some? && ParseInt(shares.value).Some? && ParseInt(shares.value).value > 0
      && Filled(symbol)
      && Quotes.Lookup(symbol.value, feed).Some?
      && acct.cash >= Worth(ParseInt(shares.value).value, Quotes.Lookup(symbol.value, feed).value.price)
  {
  }

  /** A purchase costing more than the cash is refused as unaffordable. */
  lemma BuyBeyondCashRefused(acct: Account, symbol: string, shares: string,
                             feed: string -> Option<real>)
    requires symbol != "" && ParseInt(shares).Some? && ParseInt(shares).value > 0
    requires Quotes.Lookup(symbol, feed).Some?
    requires acct.cash < Worth(ParseInt(shares).value, Quotes.Lookup(symbol, feed).value.price)
    ensures Buy(acct, Some(symbol), Some(shares), feed) == Err(CannotAfford)
  {
  }

  /** Spending exactly the cash is allowed and leaves none. */
  lemma BuyExactCash(acct: Account, symbol: string, shares: string, feed: string -> Option<real>)
    requires symbol != "" && ParseInt(shares).Some? && ParseInt(shares).value > 0
    requires Quotes.Lookup(symbol, feed).Some?
    requires acct.cash == Worth(ParseInt(shares).value, Quotes.Lookup(symbol, feed).value.price)
    ensures Buy(acct, Some(symbol), Some(shares), feed).Ok?
    ensures Buy(acct, Some(symbol), Some(shares), feed).value.cash == 0.0
  {
  }

  /** `sell` goes through exactly when both fields are filled, the shares
      parse to a positive integer, and the first row for the submitted
      symbol holds a non-zero amount no smaller than the shares. */
  lemma SellAcceptedIff(acct: Account, symbol: Option<string>, shares: Option<string>,
                        price: string -> real)
    ensures Sell(acct, symbol, shares, price).Ok? <==>
      && Filled(symbol) && Filled(shares)
      && ParseInt(shares.value).Some? && ParseInt(shares.value).value > 0
      && FindRow(acct.holdings, symbol.value).Some?
      && HeldAmount(acct.holdings, symbol.value) != 0
      && HeldAmount(acct.holdings, symbol.value) >= ParseInt(shares.value).value
  {
  }

  /** Selling more shares than held is refused. */
  lemma SellBeyondHoldingRefused(acct: Account, symbol: string, shares: string, price: string -> real)
    requires symbol != "" && ParseInt(shares).Some? && ParseInt(shares).value > 0
    requires HeldAmount(acct.holdings, symbol) > 0
    requires HeldAmount(acct.holdings, symbol) < ParseInt(shares).value
    ensures Sell(acct, Some(symbol), Some(shares), price) == Err(NotEnoughShares)
  {
  }

  /** `sell` matches rows by the symbol as typed while `buy` stores it upper
      case: on a valid ledger a symbol with a lower-case letter sells
      nothing. */
  lemma SellNeedsStoredCase(acct: Account, symbol: string, shares: Option<string>, price: string -> real)
    requires Valid(acct)
    requires Upper(symbol) != symbol
    ensures Sell(acct, Some(symbol), shares, price).Err?
  {
    assert FindRow(acct.holdings, symbol).None?;
  }

  /** Buying n shares of a symbol not held and selling the same n under the
      stored (upper-case) symbol at the same price restores the cash and the
      rows exactly; the log grows by the two trades. */
  lemma BuyThenSellRestores(acct: Account, symbol: string, shares: string,
                            feed: string -> Option<real>, price: string -> real)
    requires Buy(acct, Some(symbol), Some(shares), feed).Ok?
    requires FindRow(acct.holdings, Upper(symbol)).None?
    requires price(Upper(symbol)) == Quotes.Lookup(symbol, feed).value.price
    ensures var bought := Buy(acct, Some(symbol), Some(shares), feed).value;
      var sold := Sell(bought, Some(Upper(symbol)), Some(shares), price);
      && sold.Ok?
      && sold.value.cash == acct.cash
      && sold.value.holdings == acct.holdings
      && FindRow(sold.value.holdings, Upper(symbol)).None?
      && sold.value.log == acct.log + [Trade(Upper(symbol), ParseInt(shares).value, price(Upper(symbol))),
                                       Trade(Upper(symbol), -ParseInt(shares).value, price(Upper(symbol)))]
  {
    var u, n := Upper(symbol), ParseInt(shares).value;
    var bought := Buy(acct, Some(symbol), Some(shares), feed).value;
    assert bought.holdings == Upsert(acct.holdings, u, n);
    SellUndoesNewRow(acct.holdings, u, n);
    SellWholeRow(bought, u, shares, price, |acct.holdings|);
  }

  /** Selling exactly the amount of the first row for a symbol. */
  lemma SellWholeRow(acct: Account, symbol: string, shares: string, price: string -> real, i: nat)
    requires symbol != "" && ParseInt(shares).Some? && ParseInt(shares).value > 0
    requires FindRow(acct.holdings, symbol) == Some(i)
    requires acct.holdings[i].amount == ParseInt(shares).value
    ensures var n := ParseInt(shares).value;
      Sell(acct, Some(symbol), Some(shares), price)
        == Ok(Account(acct.cash + Worth(n, price(symbol)), acct.hash,
                      SellRows(acct.holdings, symbol, n, n),
                      acct.log + [Trade(symbol, -n, price(symbol))]))
  {
    var n := ParseInt(shares).value;
    assert shares != "";
    var r := Sell(acct, Some(symbol), Some(shares), price);
    assert r.Ok?;
    assert r.value.cash == acct.cash + Worth(n, price(symbol));
    assert r.value.holdings == SellRows(acct.holdings, symbol, n, n);
    assert r.value.log == acct.log + [Trade(symbol, -n, price(symbol))];
  }

  /** The deposit checks run in order: once the card is refused, the
      password is never consulted. */
  lemma AddCashCardBeforePassword(acct: Account, cash: Option<string>, credit: Option<string>,
                                  password: Option<string>, v1: (string, string) -> bool,
                                  v2: (string, string) -> bool)
    requires Filled(credit)
    requires !Card.CardCharsetOk(credit.value)
             || Card.CardValue(credit.value).None?
             || !Card.CreditVerify(Card.CardValue(credit.value).value)
    ensures AddCash(acct, cash, credit, password, v1) == AddCash(acct, cash, credit, password, v2)
    ensures AddCash(acct, cash, credit, password, v1).Err?
  {
  }

  /** `add_cash` does not check the sign: a negative amount withdraws. */
  lemma AddCashCanWithdraw(acct: Account, k: int, credit: string, password: string,
                           verify: (string, string) -> bool)
    requires k < 0
    requires Card.CardCharsetOk(credit) && Card.CardValue(credit).Some?
    requires Card.CreditVerify(Card.CardValue(credit).value)
    requires password != "" && verify(acct.hash, password)
    ensures AddCash(acct, Some(IntToString(k)), Some(credit), Some(password), verify)
            == Ok(acct.(cash := acct.cash + k as real))
    ensures acct.cash + k as real < acct.cash
  {
    var text := IntToString(k);
    ParseIntRoundTrip(k);
    assert text != "";
    AddCashAccepts(acct, text, k, credit, password, verify);
  }

  /** A deposit that passes every check adds the parsed amount to the cash
      and changes nothing else. */
  lemma AddCashAccepts(acct: Account, cash: string, k: int, credit: string, password: string,
                       verify: (string, string) -> bool)
    requires cash != "" && ParseInt(cash) == Some(k)
    requires Card.CardCharsetOk(credit) && Card.CardValue(credit).Some?
    requires Card.CreditVerify(Card.CardValue(credit).value)
    requires password != "" && verify(acct.hash, password)
    ensures AddCash(acct, Some(cash), Some(credit), Some(password), verify)
            == Ok(acct.(cash := acct.cash + k as real))
  {
    assert Filled(Some(cash)) && Filled(Some(credit)) && Filled(Some(password));
  }

  /** The portfolio value `index` shows: each row's amount times the price
      the quote loop settles on for its symbol, summed in row order. */
  function HoldingsValue(rows: seq<Holding>, price: string -> real): real {
    if |rows| == 0 then 0.0
    else Worth(rows[0].amount, price(rows[0].symbol)) + HoldingsValue(rows[1..], price)
  }

  /** `index`'s grand total: the holdings' value plus the cash. */
  function Total(acct: Account, price: string -> real): real {
    HoldingsValue(acct.holdings, price) + acct.cash
  }

  lemma WorthAdd(a: int, b: int, p: real)
    ensures Worth(a + b, p) == Worth(a, p) + Worth(b, p)
  {
  }

  lemma {:induction false} HoldingsValueConcat(a: seq<Holding>, b: seq<Holding>, price: string -> real)
    ensures HoldingsValue(a + b, price) == HoldingsValue(a, price) + HoldingsValue(b, price)
  {
    if |a| == 0 {
      assert a + b == b;
    } else {
      assert (a + b)[1..] == a[1..] + b;
      HoldingsValueConcat(a[1..], b, price);
    }
  }

  lemma HoldingsValueOne(h: Holding, price: string -> real)
    ensures HoldingsValue([h], price) == Worth(h.amount, price(h.symbol))
  {
    assert [h][1..] == [];
  }

  /** Splitting the rows around row `i`. */
  lemma HoldingsValueAround(rows: seq<Holding>, i: nat, price: string -> real)
    requires i < |rows|
    ensures HoldingsValue(rows, price)
            == HoldingsValue(rows[..i], price) + Worth(rows[i].amount, price(rows[i].symbol))
               + HoldingsValue(rows[i + 1..], price)
  {
    assert rows == rows[..i] + ([rows[i]] + rows[i + 1..]);
    HoldingsValueConcat(rows[..i], [rows[i]] + rows[i + 1..], price);
    HoldingsValueConcat([rows[i]], rows[i + 1..], price);
    HoldingsValueOne(rows[i], price);
  }

  /** Replacing row `i` changes the value by the difference of the two rows. */
  lemma HoldingsValueUpdate(rows: seq<Holding>, i: nat, h: Holding, price: string -> real)
    requires i < |rows|
    ensures HoldingsValue(rows[i := h], price) + Worth(rows[i].amount, price(rows[i].symbol))
            == HoldingsValue(rows, price) + Worth(h.amount, price(h.symbol))
  {
    var updated := rows[i := h];
    HoldingsValueAround(rows, i, price);
    HoldingsValueAround(updated, i, price);
    assert updated[..i] == rows[..i] && updated[i + 1..] == rows[i + 1..];
  }

  /** Removing row `i` takes its value off. */
  lemma HoldingsValueRemove(rows: seq<Holding>, i: nat, price: string -> real)
    requires i < |rows|
    ensures HoldingsValue(rows[..i] + rows[i + 1..], price) + Worth(rows[i].amount, price(rows[i].symbol))
            == HoldingsValue(rows, price)
  {
    HoldingsValueAround(rows, i, price);
    HoldingsValueConcat(rows[..i], rows[i + 1..], price);
  }

  /** A purchase at the price the total is taken at moves money from cash
      into holdings: the total `index` shows is unchanged. */
  lemma BuyKeepsTotal(acct: Account, symbol: Option<string>, shares: Option<string>,
                      feed: string -> Option<real>, price: string -> real)
    requires Buy(acct, symbol, shares, feed).Ok?
    requires price(Upper(symbol.value)) == Quotes.Lookup(symbol.value, feed).value.price
    ensures Total(Buy(acct, symbol, shares, feed).value, price) == Total(acct, price)
  {
    var next := Buy(acct, symbol, shares, feed).value;
    var u, n := Upper(symbol.value), ParseInt(shares.value).value;
    var rows := acct.holdings;
    assert next.holdings == Upsert(rows, u, n);
    assert next.cash == acct.cash - Worth(n, price(u));
    match FindRow(rows, u)
    case None =>
      assert next.holdings == rows + [Holding(u, n)];
      HoldingsValueConcat(rows, [Holding(u, n)], price);
      HoldingsValueOne(Holding(u, n), price);
    case Some(i) =>
      assert next.holdings == rows[i := Holding(u, rows[i].amount + n)];
      HoldingsValueUpdate(rows, i, Holding(u, rows[i].amount + n), price);
      WorthAdd(rows[i].amount, n, price(u));
  }

  /** On a table with one row per symbol, a sale at the price the total is
      taken at moves money from holdings into cash: the total is unchanged. */
  lemma SellKeepsTotal(acct: Account, symbol: Option<string>, shares: Option<string>,
                       price: string -> real)
    requires UniqueSymbols(acct.holdings)
    requires Sell(acct, symbol, shares, price).Ok?
    ensures Total(Sell(acct, symbol, shares, price).value, price) == Total(acct, price)
  {
    var next := Sell(acct, symbol, shares, price).value;
    var s, n := symbol.value, ParseInt(shares.value).value;
    var rows := acct.holdings;
    var i := FindRow(rows, s).value;
    var available := rows[i].amount;
    assert next.holdings == SellRows(rows, s, available, n);
    assert next.cash == acct.cash + Worth(n, price(s));
    if available == n {
      DeleteAllUnique(rows, s, i);
      HoldingsValueRemove(rows, i, price);
    } else {
      SetAllUnique(rows, s, available - n, i);
      HoldingsValueUpdate(rows, i, Holding(s, available - n), price);
      WorthAdd(available - n, n, price(s));
    }
  }
}
