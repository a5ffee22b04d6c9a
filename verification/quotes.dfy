/** The local part of `lookup` (helpers.py): the symbol pre-filter and the
    shape of a successful answer. The HTTP request and the CSV parsing are a
    parameter `feed`, which yields the parsed price of the submitted symbol or
    `None` when anything on the way fails. */
module Quotes {
  import opened Results
  import opened Strings

  datatype Quote = Quote(price: real, symbol: string)

  /** Symbols refused before any network access: a leading caret or a comma. */
  predicate RejectedLocally(symbol: string) {
    (|symbol| > 0 && symbol[0] == '^') || ',' in symbol
  }

  function Lookup(symbol: string, feed: string -> Option<real>): (r: Option<Quote>)
    ensures RejectedLocally(symbol) ==> r == None
    ensures !RejectedLocally(symbol) ==> (r.Some? <==> feed(symbol).Some?)
    ensures r.Some? ==> r.value.price == feed(symbol).value
    ensures r.Some? ==> r.value.symbol == Upper(symbol)
  {
    if |symbol| > 0 && symbol[0] == '^' then None
    else if ',' in symbol then None
    else match feed(symbol)
      case None => None
      case Some(price) => Some(Quote(price, Upper(symbol)))
  }

  /** The symbol `lookup` hands back is already upper case and would itself
      pass the local filter, so storing it keeps stored symbols canonical. */
  lemma LookupSymbolIsCanonical(symbol: string, feed: string -> Option<real>)
    requires Lookup(symbol, feed).Some?
    ensures var u := Lookup(symbol, feed).value.symbol;
      |u| == |symbol| && Upper(u) == u && !RejectedLocally(u)
  {
    var u := Upper(symbol);
    UpperIsCanonical(symbol);
  }
}
