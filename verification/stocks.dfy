/** The rows of one user in the `stocks` table (app.py:65-70). The schema has
    no uniqueness constraint on the symbol, so the table is a sequence of
    rows and "one row per symbol" is something the handlers must keep. */
module Stocks {
  import opened Results

  datatype Holding = Holding(symbol: string, amount: int)

  /** The first row for `symbol`: what `SELECT ... WHERE symbol=:symbol`
      followed by `[0]` reads. */
  function FindRow(rows: seq<Holding>, symbol: string): (r: Option<nat>)
    ensures r.Some? ==> r.value < |rows| && rows[r.value].symbol == symbol
    ensures r.Some? ==> forall j :: 0 <= j < r.value ==> rows[j].symbol != symbol
    ensures r.None? ==> forall j :: 0 <= j < |rows| ==> rows[j].symbol != symbol
  {
    if |rows| == 0 then None
    else if rows[0].symbol == symbol then Some(0)
    else match FindRow(rows[1..], symbol)
      case None => None
      case Some(i) => Some(i + 1)
  }

  /** A table in which no row carries `symbol` has no row for it. */
  lemma {:induction false} FindRowAbsent(rows: seq<Holding>, symbol: string)
    requires forall j :: 0 <= j < |rows| ==> rows[j].symbol != symbol
    ensures FindRow(rows, symbol).None?
  {
    if |rows| > 0 {
      FindRowAbsent(rows[1..], symbol);
    }
  }

  /** The amount of the first row for `symbol`; 0 when there is none. */
  function HeldAmount(rows: seq<Holding>, symbol: string): int {
    match FindRow(rows, symbol)
    case None => 0
    case Some(i) => rows[i].amount
  }

  predicate UniqueSymbols(rows: seq<Holding>) {
    forall i, j :: 0 <= i < j < |rows| ==> rows[i].symbol != rows[j].symbol
  }

  predicate PositiveAmounts(rows: seq<Holding>) {
    forall i :: 0 <= i < |rows| ==> rows[i].amount > 0
  }

  /** `buy`'s upsert: add `shares` to the first row for `symbol` (updated by
      its row id), or insert a new row when there is none. */
  function Upsert(rows: seq<Holding>, symbol: string, shares: int): seq<Holding> {
    match FindRow(rows, symbol)
    case None => rows + [Holding(symbol, shares)]
    case Some(i) => rows[i := Holding(symbol, rows[i].amount + shares)]
  }

  /** `DELETE FROM stocks WHERE symbol=:symbol`: drops every row for it. */
  function DeleteAll(rows: seq<Holding>, symbol: string): (r: seq<Holding>)
    ensures |r| <= |rows|
    ensures forall i :: 0 <= i < |r| ==> r[i].symbol != symbol
  {
    if |rows| == 0 then []
    else (if rows[0].symbol == symbol then [] else [rows[0]]) + DeleteAll(rows[1..], symbol)
  }

  /** Deleting keeps only rows that were there. */
  lemma {:induction false} DeleteAllSubset(rows: seq<Holding>, symbol: string)
    ensures forall i :: 0 <= i < |DeleteAll(rows, symbol)| ==> DeleteAll(rows, symbol)[i] in rows
  {
    if |rows| > 0 {
      DeleteAllSubset(rows[1..], symbol);
      var rest := DeleteAll(rows[1..], symbol);
      forall i | 0 <= i < |DeleteAll(rows, symbol)|
        ensures DeleteAll(rows, symbol)[i] in rows
      {
        if rows[0].symbol != symbol && i == 0 {
          assert DeleteAll(rows, symbol)[0] == rows[0];
        } else {
          var j := if rows[0].symbol != symbol then i - 1 else i;
          assert DeleteAll(rows, symbol)[i] == rest[j];
          assert rest[j] in rows[1..];
        }
      }
    }
  }

  /** `UPDATE stocks SET amount=:amount WHERE symbol=:symbol`: every row for
      the symbol gets the new amount. */
  function SetAll(rows: seq<Holding>, symbol: string, amount: int): (r: seq<Holding>)
    ensures |r| == |rows|
    ensures forall i :: 0 <= i < |rows| ==> r[i].symbol == rows[i].symbol
  {
    if |rows| == 0 then []
    else
      var head := if rows[0].symbol == symbol then Holding(symbol, amount) else rows[0];
      [head] + SetAll(rows[1..], symbol, amount)
  }

  /** Rows with the same symbols in the same places are searched alike. */
  lemma {:induction false} FindRowBySymbols(a: seq<Holding>, b: seq<Holding>, x: string)
    requires |a| == |b|
    requires forall i :: 0 <= i < |a| ==> a[i].symbol == b[i].symbol
    ensures FindRow(a, x) == FindRow(b, x)
  {
    if |a| > 0 {
      FindRowBySymbols(a[1..], b[1..], x);
    }
  }

  /** Upserting changes only the held amount of `symbol`, by `shares`. */
  lemma UpsertHeld(rows: seq<Holding>, symbol: string, shares: int, x: string)
    ensures HeldAmount(Upsert(rows, symbol, shares), x)
                 == HeldAmount(rows, x) + (if x == symbol then shares else 0)
  {
    var r := Upsert(rows, symbol, shares);
    match FindRow(rows, symbol)
    case None =>
      assert forall j :: 0 <= j < |rows| ==> r[j] == rows[j];
      assert r[|rows|].symbol == symbol;
    case Some(i) =>
      FindRowBySymbols(r, rows, x);
  }

  lemma UpsertKeepsUnique(rows: seq<Holding>, symbol: string, shares: int)
    requires UniqueSymbols(rows)
    ensures UniqueSymbols(Upsert(rows, symbol, shares))
  {
  }

  lemma UpsertKeepsPositive(rows: seq<Holding>, symbol: string, shares: int)
    requires PositiveAmounts(rows) && shares > 0
    ensures PositiveAmounts(Upsert(rows, symbol, shares))
  {
  }

  /** Deleting a symbol's rows zeroes its held amount and keeps every other
      symbol's, even when the table holds duplicates. */
  lemma {:induction false} DeleteAllHeld(rows: seq<Holding>, symbol: string, x: string)
    ensures HeldAmount(DeleteAll(rows, symbol), x) == if x == symbol then 0 else HeldAmount(rows, x)
  {
    if |rows| > 0 {
      DeleteAllHeld(rows[1..], symbol, x);
      var rest := DeleteAll(rows[1..], symbol);
      if rows[0].symbol != symbol {
        assert DeleteAll(rows, symbol) == [rows[0]] + rest;
        assert ([rows[0]] + rest)[1..] == rest;
      } else {
        assert DeleteAll(rows, symbol) == rest;
      }
    }
  }

  /** Setting a symbol's rows gives it the new amount (when it has a row) and
      keeps every other symbol's. */
  lemma {:induction false} SetAllHeld(rows: seq<Holding>, symbol: string, amount: int, x: string)
    ensures HeldAmount(SetAll(rows, symbol, amount), x)
                 == if x == symbol && FindRow(rows, x).Some? then amount else HeldAmount(rows, x)
  {
    var r := SetAll(rows, symbol, amount);
    FindRowBySymbols(r, rows, x);
    if |rows| > 0 {
      SetAllHeld(rows[1..], symbol, amount, x);
      assert r[1..] == SetAll(rows[1..], symbol, amount);
    }
  }

  lemma {:induction false} DeleteAllKeepsUnique(rows: seq<Holding>, symbol: string)
    requires UniqueSymbols(rows)
    ensures UniqueSymbols(DeleteAll(rows, symbol))
  {
    if |rows| > 0 {
      DeleteAllKeepsUnique(rows[1..], symbol);
      DeleteAllSubset(rows[1..], symbol);
      var rest := DeleteAll(rows[1..], symbol);
      forall i | 0 <= i < |rest|
        ensures rest[i].symbol != rows[0].symbol
      {
        var k :| 0 <= k < |rows[1..]| && rows[1..][k] == rest[i];
        assert rows[k + 1] == rest[i];
      }
    }
  }

  lemma {:induction false} DeleteAllKeepsPositive(rows: seq<Holding>, symbol: string)
    requires PositiveAmounts(rows)
    ensures PositiveAmounts(DeleteAll(rows, symbol))
  {
    var r := DeleteAll(rows, symbol);
    DeleteAllSubset(rows, symbol);
    forall i | 0 <= i < |r|
      ensures r[i].amount > 0
    {
      var k :| 0 <= k < |rows| && rows[k] == r[i];
    }
  }

  lemma SetAllKeepsUnique(rows: seq<Holding>, symbol: string, amount: int)
    requires UniqueSymbols(rows)
    ensures UniqueSymbols(SetAll(rows, symbol, amount))
  {
    var r := SetAll(rows, symbol, amount);
    assert forall j :: 0 <= j < |r| ==> r[j].symbol == rows[j].symbol;
  }

  lemma {:induction false} SetAllKeepsPositive(rows: seq<Holding>, symbol: string, amount: int)
    requires PositiveAmounts(rows) && amount > 0
    ensures PositiveAmounts(SetAll(rows, symbol, amount))
  {
    if |rows| > 0 {
      SetAllKeepsPositive(rows[1..], symbol, amount);
    }
  }

  /** A table without the symbol is unchanged by deleting it. */
  lemma {:induction false} DeleteAllAbsent(rows: seq<Holding>, symbol: string)
    requires FindRow(rows, symbol).None?
    ensures DeleteAll(rows, symbol) == rows
  {
    if |rows| > 0 {
      DeleteAllAbsent(rows[1..], symbol);
      assert rows == [rows[0]] + rows[1..];
    }
  }

  lemma {:induction false} DeleteAllAppend(rows: seq<Holding>, h: Holding, symbol: string)
    ensures DeleteAll(rows + [h], symbol)
      == DeleteAll(rows, symbol) + (if h.symbol == symbol then [] else [h])
  {
    if |rows| == 0 {
      assert rows + [h] == [h];
    } else {
      assert (rows + [h])[1..] == rows[1..] + [h];
      DeleteAllAppend(rows[1..], h, symbol);
    }
  }

  /** Rows for other symbols keep their contents and their order under an
      upsert of `symbol`. */
  lemma {:induction false} UpsertKeepsOthers(rows: seq<Holding>, symbol: string, shares: int)
    ensures DeleteAll(Upsert(rows, symbol, shares), symbol) == DeleteAll(rows, symbol)
  {
    match FindRow(rows, symbol)
    case None =>
      DeleteAllAppend(rows, Holding(symbol, shares), symbol);
    case Some(i) =>
      DeleteAllReplace(rows, i, Holding(symbol, rows[i].amount + shares), symbol);
  }

  lemma {:induction false} DeleteAllReplace(rows: seq<Holding>, i: nat, h: Holding, symbol: string)
    requires i < |rows| && rows[i].symbol == symbol && h.symbol == symbol
    ensures DeleteAll(rows[i := h], symbol) == DeleteAll(rows, symbol)
  {
    if i > 0 {
      assert rows[i := h][1..] == rows[1..][i - 1 := h];
      DeleteAllReplace(rows[1..], i - 1, h, symbol);
    } else {
      assert rows[i := h][1..] == rows[1..];
    }
  }

  lemma {:induction false} SetAllKeepsOthers(rows: seq<Holding>, symbol: string, amount: int)
    ensures DeleteAll(SetAll(rows, symbol, amount), symbol) == DeleteAll(rows, symbol)
  {
    if |rows| > 0 {
      SetAllKeepsOthers(rows[1..], symbol, amount);
      assert SetAll(rows, symbol, amount)[1..] == SetAll(rows[1..], symbol, amount);
    }
  }

  lemma {:induction false} DeleteAllIdempotent(rows: seq<Holding>, symbol: string)
    ensures DeleteAll(DeleteAll(rows, symbol), symbol) == DeleteAll(rows, symbol)
  {
    var r := DeleteAll(rows, symbol);
    FindRowAbsent(r, symbol);
    DeleteAllAbsent(r, symbol);
  }

  lemma UpsertHeldAll(rows: seq<Holding>, symbol: string, shares: int)
    ensures forall x :: HeldAmount(Upsert(rows, symbol, shares), x)
                 == HeldAmount(rows, x) + (if x == symbol then shares else 0)
  {
    forall x
      ensures HeldAmount(Upsert(rows, symbol, shares), x)
        == HeldAmount(rows, x) + (if x == symbol then shares else 0)
    {
      UpsertHeld(rows, symbol, shares, x);
    }
  }

  /** `sell`'s write to the rows, given the first row's amount `available`:
      every row for `symbol` is deleted when all `n` shares go, otherwise
      every one is set to the remainder. */
  function SellRows(rows: seq<Holding>, symbol: string, available: int, n: int): seq<Holding> {
    if available == n then DeleteAll(rows, symbol) else SetAll(rows, symbol, available - n)
  }

  lemma SellRowsKeepsOthers(rows: seq<Holding>, symbol: string, i: nat, n: int)
    requires FindRow(rows, symbol) == Some(i)
    ensures DeleteAll(SellRows(rows, symbol, rows[i].amount, n), symbol) == DeleteAll(rows, symbol)
  {
    var available := rows[i].amount;
    if available == n {
      DeleteAllIdempotent(rows, symbol);
    } else {
      SetAllKeepsOthers(rows, symbol, available - n);
    }
  }

  lemma SellRowsClearsSoldOut(rows: seq<Holding>, symbol: string, i: nat, n: int)
    requires FindRow(rows, symbol) == Some(i)
    requires rows[i].amount == n
    ensures FindRow(SellRows(rows, symbol, rows[i].amount, n), symbol).None?
  {
    FindRowAbsent(DeleteAll(rows, symbol), symbol);
  }

  lemma SellRowsRemainderHeld(rows: seq<Holding>, symbol: string, i: nat, n: int, x: string)
    requires FindRow(rows, symbol) == Some(i)
    requires rows[i].amount != n
    ensures HeldAmount(SellRows(rows, symbol, rows[i].amount, n), x) == HeldAmount(rows, x) - (if x == symbol then n else 0)
  {
    var amount := rows[i].amount - n;
    assert SellRows(rows, symbol, rows[i].amount, n) == SetAll(rows, symbol, amount);
    SetAllHeld(rows, symbol, amount, x);
    if x == symbol {
      assert HeldAmount(rows, x) == rows[i].amount;
    }
  }

  lemma SellRowsSoldOutHeld(rows: seq<Holding>, symbol: string, i: nat, n: int, x: string)
    requires FindRow(rows, symbol) == Some(i)
    requires rows[i].amount == n
    ensures HeldAmount(SellRows(rows, symbol, rows[i].amount, n), x) == HeldAmount(rows, x) - (if x == symbol then n else 0)
  {
    assert SellRows(rows, symbol, rows[i].amount, n) == DeleteAll(rows, symbol);
    DeleteAllHeld(rows, symbol, x);
    if x == symbol {
      assert HeldAmount(rows, x) == rows[i].amount;
    }
  }

  /** Selling `n` of the shares in the first row for `symbol` lowers its held
      amount by `n` and leaves every other symbol's rows alone; a sell-out
      leaves no row for it. */
  lemma SellRowsEffect(rows: seq<Holding>, symbol: string, i: nat, n: int)
    requires FindRow(rows, symbol) == Some(i)
    ensures var r := SellRows(rows, symbol, rows[i].amount, n);
      && (forall x :: HeldAmount(r, x) == HeldAmount(rows, x) - (if x == symbol then n else 0))
      && DeleteAll(r, symbol) == DeleteAll(rows, symbol)
      && (rows[i].amount == n ==> FindRow(r, symbol).None?)
  {
    SellRowsKeepsOthers(rows, symbol, i, n);
    if rows[i].amount == n {
      SellRowsClearsSoldOut(rows, symbol, i, n);
      forall x
        ensures HeldAmount(SellRows(rows, symbol, rows[i].amount, n), x)
                == HeldAmount(rows, x) - (if x == symbol then n else 0)
      {
        SellRowsSoldOutHeld(rows, symbol, i, n, x);
      }
    } else {
      forall x
        ensures HeldAmount(SellRows(rows, symbol, rows[i].amount, n), x)
                == HeldAmount(rows, x) - (if x == symbol then n else 0)
      {
        SellRowsRemainderHeld(rows, symbol, i, n, x);
      }
    }
  }

  /** Selling every share of a symbol just bought for the first time gives
      back the rows as they were before the purchase. */
  lemma {:induction false} SellUndoesNewRow(rows: seq<Holding>, symbol: string, n: int)
    requires FindRow(rows, symbol).None?
    ensures var r := Upsert(rows, symbol, n);
      && FindRow(r, symbol) == Some(|rows|)
      && r[|rows|].amount == n
      && SellRows(r, symbol, n, n) == rows
  {
    var r := Upsert(rows, symbol, n);
    assert r == rows + [Holding(symbol, n)];
    FindRowAppendAbsent(rows, Holding(symbol, n));
    DeleteAllAppend(rows, Holding(symbol, n), symbol);
    DeleteAllAbsent(rows, symbol);
  }

  /** A row appended to a table that lacks its symbol is the first for it. */
  lemma {:induction false} FindRowAppendAbsent(rows: seq<Holding>, h: Holding)
    requires FindRow(rows, h.symbol).None?
    ensures FindRow(rows + [h], h.symbol) == Some(|rows|)
  {
    if |rows| > 0 {
      assert (rows + [h])[1..] == rows[1..] + [h];
      FindRowAppendAbsent(rows[1..], h);
    }
  }

  /** Row `j` after `SetAll`: replaced when it carries the symbol, kept
      otherwise. */
  lemma {:induction false} SetAllAt(rows: seq<Holding>, symbol: string, amount: int, j: nat)
    requires j < |rows|
    ensures SetAll(rows, symbol, amount)[j] == if rows[j].symbol == symbol then Holding(symbol, amount) else rows[j]
  {
    if j > 0 {
      SetAllAt(rows[1..], symbol, amount, j - 1);
      assert SetAll(rows, symbol, amount)[j] == SetAll(rows[1..], symbol, amount)[j - 1];
    }
  }

  /** With one row per symbol, the all-rows `UPDATE` rewrites exactly the
      row `sell` read. */
  lemma SetAllUnique(rows: seq<Holding>, symbol: string, amount: int, i: nat)
    requires UniqueSymbols(rows) && FindRow(rows, symbol) == Some(i)
    ensures SetAll(rows, symbol, amount) == rows[i := Holding(symbol, amount)]
  {
    var r := SetAll(rows, symbol, amount);
    forall j | 0 <= j < |rows|
      ensures r[j] == rows[i := Holding(symbol, amount)][j]
    {
      SetAllAt(rows, symbol, amount, j);
    }
  }

  lemma {:induction false} DeleteAllConcat(a: seq<Holding>, b: seq<Holding>, symbol: string)
    ensures DeleteAll(a + b, symbol) == DeleteAll(a, symbol) + DeleteAll(b, symbol)
  {
    if |a| == 0 {
      assert a + b == b;
    } else {
      assert (a + b)[1..] == a[1..] + b;
      DeleteAllConcat(a[1..], b, symbol);
    }
  }

  /** With one row per symbol, the all-rows `DELETE` removes exactly the row
      `sell` read. */
  lemma DeleteAllUnique(rows: seq<Holding>, symbol: string, i: nat)
    requires UniqueSymbols(rows) && FindRow(rows, symbol) == Some(i)
    ensures DeleteAll(rows, symbol) == rows[..i] + rows[i + 1..]
  {
    var front, back := rows[..i], rows[i + 1..];
    forall j | 0 <= j < |front|
      ensures front[j].symbol != symbol
    {
      assert front[j] == rows[j];
    }
    forall j | 0 <= j < |back|
      ensures back[j].symbol != symbol
    {
      assert back[j] == rows[i + 1 + j];
      assert rows[i].symbol != rows[i + 1 + j].symbol;
    }
    FindRowAbsent(front, symbol);
    FindRowAbsent(back, symbol);
    DeleteAllAround(rows, symbol, i);
  }

  /** Deleting from a table whose only row for `symbol` is row `i`. */
  lemma DeleteAllAround(rows: seq<Holding>, symbol: string, i: nat)
    requires i < |rows| && rows[i].symbol == symbol
    requires FindRow(rows[..i], symbol).None? && FindRow(rows[i + 1..], symbol).None?
    ensures DeleteAll(rows, symbol) == rows[..i] + rows[i + 1..]
  {
    assert rows == rows[..i] + [rows[i]] + rows[i + 1..];
    DeleteAllSplice(rows[..i], rows[i], rows[i + 1..], symbol);
  }

  lemma DeleteAllSplice(front: seq<Holding>, h: Holding, back: seq<Holding>, symbol: string)
    requires h.symbol == symbol
    requires FindRow(front, symbol).None? && FindRow(back, symbol).None?
    ensures DeleteAll(front + [h] + back, symbol) == front + back
  {
    DeleteAllAbsent(front, symbol);
    DeleteAllAbsent(back, symbol);
    DeleteAllAppend(front, h, symbol);
    DeleteAllConcat(front + [h], back, symbol);
  }
}
