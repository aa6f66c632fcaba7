/**
 * The per-user buy/sell ledger of src/ContentManager.backup.tsx: the
 * transaction record, the signed running totals, the weighted-average
 * prices, profit/loss of a single buy, and the list rewrites that the
 * add, edit, sell and delete actions perform.
 */
module Ledger {
  import opened Wrappers
  import opened Money

  datatype Kind = Buy | Sell

  datatype Transaction = Transaction(
    id: string,
    userId: string,
    kind: Kind,
    date: string,
    time: string,
    bitcoinAmount: real,
    satoshis: int,
    fiatAmount: real,
    fiatCurrency: Currency,
    bitcoinPrice: real,
    createdAt: string,
    exchangeRates: Option<Rates>)

  /** The buy form's fields, as they stand when the user confirms it. */
  datatype BuyForm = BuyForm(
    date: string,
    time: string,
    bitcoinAmount: real,
    fiatAmount: real,
    fiatCurrency: Currency,
    bitcoinPrice: real)

  /** The sell form's fields; a sell is entered in satoshis. */
  datatype SellForm = SellForm(
    date: string,
    time: string,
    satoshiAmount: int,
    fiatCurrency: Currency,
    bitcoinPrice: real)

  const InsufficientSatoshis := "Quantidade de satoshis insuficiente"

  // ---------------------------------------------------------------------
  // Filters and plain sums (left folds, as `reduce` computes them)
  // ---------------------------------------------------------------------

  /** The rows of one kind, in ledger order. */
  function OfKind(txs: seq<Transaction>, kind: Kind): (rows: seq<Transaction>)
    ensures |rows| <= |txs|
    ensures forall i :: 0 <= i < |rows| ==> rows[i] in txs && rows[i].kind == kind
  {
    if txs == [] then []
    else
      var n := |txs| - 1;
      var front := OfKind(txs[..n], kind);
      if txs[n].kind == kind then front + [txs[n]] else front
  }

  /** The filter keeps exactly the rows of the given kind. */
  lemma {:induction false} OfKindMembers(txs: seq<Transaction>, kind: Kind)
    ensures forall t :: t in OfKind(txs, kind) <==> t in txs && t.kind == kind
  {
    if txs != [] {
      var n := |txs| - 1;
      OfKindMembers(txs[..n], kind);
      assert txs == txs[..n] + [txs[n]];
    }
  }

  /** Filtering distributes over concatenation: the rows of each part keep their order. */
  lemma {:induction false} OfKindConcat(a: seq<Transaction>, b: seq<Transaction>, kind: Kind)
    ensures OfKind(a + b, kind) == OfKind(a, kind) + OfKind(b, kind)
  {
    if b == [] {
      assert a + b == a;
    } else {
      var n := |b| - 1;
      OfKindConcat(a, b[..n], kind);
      var ab := a + b;
      assert ab[..|ab| - 1] == a + b[..n] && ab[|ab| - 1] == b[n];
      var last := if b[n].kind == kind then [b[n]] else [];
      assert OfKind(ab, kind) == OfKind(a + b[..n], kind) + last;
      assert OfKind(b, kind) == OfKind(b[..n], kind) + last;
    }
  }

  /** Unsigned sum of the satoshis of some rows. */
  function SatsOf(rows: seq<Transaction>): int
  {
    if rows == [] then 0 else SatsOf(rows[..|rows| - 1]) + rows[|rows| - 1].satoshis
  }

  /** The BTC quantity of one row as the averages read it: satoshis / 1e8. */
  function RowBitcoin(t: Transaction): real
  {
    t.satoshis as real / SatsPerBtc
  }

  /** Sum of satoshis / 1e8 over some rows. */
  function BitcoinOf(rows: seq<Transaction>): real
  {
    if rows == [] then 0.0 else BitcoinOf(rows[..|rows| - 1]) + RowBitcoin(rows[|rows| - 1])
  }

  /** A row's fiat amount can be shown in `display` (no division by a zero rate). */
  predicate Convertible(t: Transaction, display: Currency, live: Rates)
  {
    CanConvert(t.fiatCurrency, display, EffectiveRates(t.exchangeRates, live))
  }

  predicate AllConvertible(rows: seq<Transaction>, display: Currency, live: Rates)
  {
    forall i :: 0 <= i < |rows| ==> Convertible(rows[i], display, live)
  }

  /** A row's fiat amount in the display currency, through the row's own rate snapshot if it has one. */
  function RowValue(t: Transaction, display: Currency, live: Rates): real
    requires Convertible(t, display, live)
  {
    Convert(t.fiatAmount, t.fiatCurrency, display, t.exchangeRates, live)
  }

  /** Sum of the converted fiat amounts of some rows. */
  function ValueOf(rows: seq<Transaction>, display: Currency, live: Rates): real
    requires AllConvertible(rows, display, live)
  {
    if rows == [] then 0.0
    else
      var n := |rows| - 1;
      ValueOf(rows[..n], display, live) + RowValue(rows[n], display, live)
  }

  // ---------------------------------------------------------------------
  // Running totals
  // ---------------------------------------------------------------------

  /** The running balance: satoshis bought minus satoshis sold. */
  function TotalSatoshis(txs: seq<Transaction>): int
  {
    if txs == [] then 0
    else
      var n := |txs| - 1;
      var sum := TotalSatoshis(txs[..n]);
      if txs[n].kind == Buy then sum + txs[n].satoshis else sum - txs[n].satoshis
  }

  /** The running balance is the satoshis bought minus the satoshis sold. */
  lemma {:induction false} TotalSatoshisSplit(txs: seq<Transaction>)
    ensures TotalSatoshis(txs) == SatsOf(OfKind(txs, Buy)) - SatsOf(OfKind(txs, Sell))
  {
    if txs != [] {
      var n := |txs| - 1;
      TotalSatoshisSplit(txs[..n]);
      SplitLast(txs);
      var k := txs[n].kind;
      assert SatsOf(OfKind(txs, k)) == SatsOf(OfKind(txs[..n], k)) + txs[n].satoshis by {
        var rows := OfKind(txs, k);
        assert rows[..|rows| - 1] == OfKind(txs[..n], k);
      }
    }
  }

  /** The balance in bitcoin. */
  function TotalBitcoin(txs: seq<Transaction>): (btc: real)
    ensures btc * SatsPerBtc == TotalSatoshis(txs) as real
    ensures btc == 0.0 <==> TotalSatoshis(txs) == 0
    ensures btc > 0.0 <==> TotalSatoshis(txs) > 0
  {
    TotalSatoshis(txs) as real / SatsPerBtc
  }

  /** Net amount invested in the display currency: converted buys minus converted sells. */
  function TotalInvested(txs: seq<Transaction>, display: Currency, live: Rates): real
    requires AllConvertible(txs, display, live)
  {
    if txs == [] then 0.0
    else
      var n := |txs| - 1;
      var sum := TotalInvested(txs[..n], display, live);
      var converted := RowValue(txs[n], display, live);
      if txs[n].kind == Buy then sum + converted else sum - converted
  }

  /** The net investment is the converted value of the buys minus that of the sells. */
  lemma {:induction false} TotalInvestedSplit(txs: seq<Transaction>, display: Currency, live: Rates)
    requires AllConvertible(txs, display, live)
    ensures TotalInvested(txs, display, live)
         == ValueOf(OfKind(txs, Buy), display, live) - ValueOf(OfKind(txs, Sell), display, live)
  {
    if txs != [] {
      var n := |txs| - 1;
      TotalInvestedSplit(txs[..n], display, live);
      SplitLast(txs);
      var k := txs[n].kind;
      assert ValueOf(OfKind(txs, k), display, live)
          == ValueOf(OfKind(txs[..n], k), display, live) + RowValue(txs[n], display, live) by {
        var rows := OfKind(txs, k);
        assert rows[..|rows| - 1] == OfKind(txs[..n], k);
      }
    }
  }

  /** Unfolding the two filters on the last row of a non-empty ledger. */
  lemma {:induction false} SplitLast(txs: seq<Transaction>)
    requires txs != []
    ensures var n := |txs| - 1;
      && OfKind(txs, txs[n].kind) == OfKind(txs[..n], txs[n].kind) + [txs[n]]
      && OfKind(txs, Other(txs[n].kind)) == OfKind(txs[..n], Other(txs[n].kind))
  {
  }

  function Other(kind: Kind): Kind
  {
    if kind == Buy then Sell else Buy
  }

  // ---------------------------------------------------------------------
  // Weighted-average prices
  // ---------------------------------------------------------------------

  /**
   * The average price paid (kind Buy) or received (kind Sell): the converted
   * fiat total of the rows of that kind over their bitcoin total, with 0
   * when there are no such rows or their bitcoin total is not positive.
   */
  function AveragePrice(txs: seq<Transaction>, kind: Kind, display: Currency, live: Rates): (avg: real)
    requires AllConvertible(OfKind(txs, kind), display, live)
    ensures BitcoinOf(OfKind(txs, kind)) <= 0.0 ==> avg == 0.0
    ensures BitcoinOf(OfKind(txs, kind)) > 0.0 ==>
      avg == ValueOf(OfKind(txs, kind), display, live) / BitcoinOf(OfKind(txs, kind))
  {
    var rows := OfKind(txs, kind);
    if |rows| == 0 then 0.0
    else
      var spent := ValueOf(rows, display, live);
      var btc := BitcoinOf(rows);
      if btc > 0.0 then spent / btc else 0.0
  }

  /** calculateAverageBuyPrice. */
  function AverageBuyPrice(txs: seq<Transaction>, display: Currency, live: Rates): (avg: real)
    requires AllConvertible(OfKind(txs, Buy), display, live)
    ensures BitcoinOf(OfKind(txs, Buy)) <= 0.0 ==> avg == 0.0
    ensures BitcoinOf(OfKind(txs, Buy)) > 0.0 ==>
      avg == ValueOf(OfKind(txs, Buy), display, live) / BitcoinOf(OfKind(txs, Buy))
  {
    AveragePrice(txs, Buy, display, live)
  }

  /** calculateAverageSellPrice. */
  function AverageSellPrice(txs: seq<Transaction>, display: Currency, live: Rates): (avg: real)
    requires AllConvertible(OfKind(txs, Sell), display, live)
    ensures BitcoinOf(OfKind(txs, Sell)) <= 0.0 ==> avg == 0.0
    ensures BitcoinOf(OfKind(txs, Sell)) > 0.0 ==>
      avg == ValueOf(OfKind(txs, Sell), display, live) / BitcoinOf(OfKind(txs, Sell))
  {
    AveragePrice(txs, Sell, display, live)
  }

  /** An empty ledger has average buy and sell prices of exactly 0. */
  lemma {:induction false} AveragesOfEmptyLedger(display: Currency, live: Rates)
    ensures AverageBuyPrice([], display, live) == 0.0
    ensures AverageSellPrice([], display, live) == 0.0
  {
  }

  /** Appending a row of the other kind leaves an average unchanged. */
  lemma {:induction false} AverageIgnoresOtherKind(txs: seq<Transaction>, t: Transaction, kind: Kind, display: Currency, live: Rates)
    requires t.kind != kind
    requires AllConvertible(OfKind(txs, kind), display, live)
    ensures OfKind(txs + [t], kind) == OfKind(txs, kind)
    ensures AveragePrice(txs + [t], kind, display, live) == AveragePrice(txs, kind, display, live)
  {
    assert (txs + [t])[..|txs|] == txs;
  }

  /** If every row of a kind was traded at the same unit price p, the average of that kind is p. */
  lemma {:induction false} AverageOfUniformPrice(txs: seq<Transaction>, kind: Kind, p: real, display: Currency, live: Rates)
    requires AllConvertible(OfKind(txs, kind), display, live)
    requires forall t :: t in txs && t.kind == kind ==>
      Convertible(t, display, live) && RowValue(t, display, live) == p * RowBitcoin(t)
    requires BitcoinOf(OfKind(txs, kind)) > 0.0
    ensures AveragePrice(txs, kind, display, live) == p
  {
    AverageBetween(txs, kind, p, p, display, live);
  }

  /**
   * A weighted average lies between the lowest and the highest unit price
   * of the rows it averages.
   */
  lemma {:induction false} AverageBetween(txs: seq<Transaction>, kind: Kind, lo: real, hi: real, display: Currency, live: Rates)
    requires AllConvertible(OfKind(txs, kind), display, live)
    requires forall t :: t in txs && t.kind == kind ==>
      Convertible(t, display, live) && lo * RowBitcoin(t) <= RowValue(t, display, live) <= hi * RowBitcoin(t)
    requires BitcoinOf(OfKind(txs, kind)) > 0.0
    ensures lo <= AveragePrice(txs, kind, display, live) <= hi
  {
    var rows := OfKind(txs, kind);
    forall i | 0 <= i < |rows|
      ensures lo * RowBitcoin(rows[i]) <= RowValue(rows[i], display, live) <= hi * RowBitcoin(rows[i])
    {
      assert rows[i] in txs;
    }
    AverageBetweenRows(rows, lo, hi, display, live);
  }

  /** The quotient form of the bound, over rows already filtered to one kind. */
  lemma {:induction false} AverageBetweenRows(rows: seq<Transaction>, lo: real, hi: real, display: Currency, live: Rates)
    requires AllConvertible(rows, display, live)
    requires forall i :: 0 <= i < |rows| ==>
      lo * RowBitcoin(rows[i]) <= RowValue(rows[i], display, live) <= hi * RowBitcoin(rows[i])
    requires BitcoinOf(rows) > 0.0
    ensures lo <= ValueOf(rows, display, live) / BitcoinOf(rows) <= hi
  {
    ValueBetween(rows, lo, hi, display, live);
    QuotientBetween(ValueOf(rows, display, live), BitcoinOf(rows), lo, hi);
  }

  /** Row unit prices between lo and hi bound the rows' value by lo and hi times their bitcoin. */
  lemma {:induction false} ValueBetween(rows: seq<Transaction>, lo: real, hi: real, display: Currency, live: Rates)
    requires AllConvertible(rows, display, live)
    requires forall i :: 0 <= i < |rows| ==>
      lo * RowBitcoin(rows[i]) <= RowValue(rows[i], display, live) <= hi * RowBitcoin(rows[i])
    ensures lo * BitcoinOf(rows) <= ValueOf(rows, display, live) <= hi * BitcoinOf(rows)
  {
    ValueAbove(rows, lo, display, live);
    ValueBelow(rows, hi, display, live);
    ScaledBitcoinIs(rows, lo);
    ScaledBitcoinIs(rows, hi);
  }

  /** The bitcoin of some rows, each row's weighted by the factor c. */
  function ScaledBitcoin(rows: seq<Transaction>, c: real): real
  {
    if rows == [] then 0.0 else ScaledBitcoin(rows[..|rows| - 1], c) + c * RowBitcoin(rows[|rows| - 1])
  }

  lemma {:induction false} ScaledBitcoinIs(rows: seq<Transaction>, c: real)
    ensures ScaledBitcoin(rows, c) == c * BitcoinOf(rows)
  {
    if rows != [] {
      var n := |rows| - 1;
      ScaledBitcoinIs(rows[..n], c);
      Distribute(c, BitcoinOf(rows[..n]), RowBitcoin(rows[n]), BitcoinOf(rows));
    }
  }

  /** Row unit prices of at least lo make the rows' value at least lo times their bitcoin. */
  lemma {:induction false} ValueAbove(rows: seq<Transaction>, lo: real, display: Currency, live: Rates)
    requires AllConvertible(rows, display, live)
    requires forall i :: 0 <= i < |rows| ==> lo * RowBitcoin(rows[i]) <= RowValue(rows[i], display, live)
    ensures ScaledBitcoin(rows, lo) <= ValueOf(rows, display, live)
  {
    if rows != [] {
      ValueAbove(rows[..|rows| - 1], lo, display, live);
    }
  }

  /** Row unit prices of at most hi make the rows' value at most hi times their bitcoin. */
  lemma {:induction false} ValueBelow(rows: seq<Transaction>, hi: real, display: Currency, live: Rates)
    requires AllConvertible(rows, display, live)
    requires forall i :: 0 <= i < |rows| ==> RowValue(rows[i], display, live) <= hi * RowBitcoin(rows[i])
    ensures ValueOf(rows, display, live) <= ScaledBitcoin(rows, hi)
  {
    if rows != [] {
      ValueBelow(rows[..|rows| - 1], hi, display, live);
    }
  }

  lemma {:induction false} Distribute(c: real, x: real, y: real, sum: real)
    requires sum == x + y
    ensures c * sum == c * x + c * y
  {
  }

  lemma {:induction false} QuotientBetween(v: real, b: real, lo: real, hi: real)
    requires b > 0.0 && lo * b <= v <= hi * b
    ensures lo <= v / b <= hi
  {
    var q := v / b;
    assert q * b == v;
    assert (q - lo) * b >= 0.0;
    assert (hi - q) * b >= 0.0;
  }

  // ---------------------------------------------------------------------
  // Profit / loss of one buy
  // ---------------------------------------------------------------------

  /** A profit and a percentage; `None` is the percentage JavaScript leaves as Infinity or NaN. */
  datatype ProfitLoss = ProfitLoss(profit: real, percentage: Option<real>)

  const NotApplicable := ProfitLoss(0.0, Some(0.0))

  /**
   * Unrealised profit of a buy at the current price (already in the display
   * currency). Sells, and a price of 0 (feed not loaded yet), give the
   * "not applicable" sentinel {0, 0}.
   */
  function ProfitLossOf(t: Transaction, currentPrice: real, display: Currency, live: Rates): (r: ProfitLoss)
    requires t.kind == Buy && currentPrice != 0.0 ==> Convertible(t, display, live)
    ensures t.kind == Sell || currentPrice == 0.0 ==> r == NotApplicable
    ensures t.kind == Buy && currentPrice != 0.0 ==>
      var original := RowValue(t, display, live);
      var current := t.bitcoinAmount * currentPrice;
      && r.profit == current - original
      && (r.profit > 0.0 <==> current > original)
      && (r.profit < 0.0 <==> current < original)
      && (r.percentage.Some? <==> original != 0.0)
      && (r.percentage.Some? ==> r.percentage.value * original == r.profit * 100.0)
  {
    if currentPrice == 0.0 || t.kind == Sell then NotApplicable
    else
      var current := t.bitcoinAmount * currentPrice;
      var original := RowValue(t, display, live);
      var profit := current - original;
      var percentage := if original == 0.0 then None else Some((current - original) / original * 100.0);
      ProfitLoss(profit, percentage)
  }

  /** For a buy of positive original value, the percentage has the sign of the profit. */
  lemma {:induction false} PercentageSign(t: Transaction, currentPrice: real, display: Currency, live: Rates)
    requires t.kind == Buy && currentPrice != 0.0
    requires Convertible(t, display, live)
    requires RowValue(t, display, live) > 0.0
    ensures ProfitLossOf(t, currentPrice, display, live).percentage.Some?
    ensures var r := ProfitLossOf(t, currentPrice, display, live);
      && (r.percentage.value > 0.0 <==> r.profit > 0.0)
      && (r.percentage.value < 0.0 <==> r.profit < 0.0)
  {
    var r := ProfitLossOf(t, currentPrice, display, live);
    var original := RowValue(t, display, live);
    var p := r.percentage.value;
    assert p * original == r.profit * 100.0;
    if p > 0.0 { assert p * original > 0.0; }
    if p < 0.0 { assert p * original < 0.0; }
    if p == 0.0 { assert r.profit == 0.0; }
  }

  // ---------------------------------------------------------------------
  // Ledger rewrites
  // ---------------------------------------------------------------------

  /**
   * The record a confirmed buy form creates: a buy of the user's, stamped
   * with the rate table, whose satoshis are the form's bitcoin amount
   * times 1e8 rounded to the nearest integer.
   */
  function NewBuy(form: BuyForm, id: string, userId: string, createdAt: string, rates: Rates): (t: Transaction)
    ensures t.id == id && t.userId == userId && t.kind == Buy && t.exchangeRates == Some(rates)
    ensures t.date == form.date && t.time == form.time && t.createdAt == createdAt
    ensures t.bitcoinAmount == form.bitcoinAmount && t.satoshis == SatoshisOf(t.bitcoinAmount)
    ensures t.fiatAmount == form.fiatAmount && t.fiatCurrency == form.fiatCurrency
    ensures t.bitcoinPrice == form.bitcoinPrice
    ensures form.bitcoinAmount * SatsPerBtc - 0.5 < t.satoshis as real <= form.bitcoinAmount * SatsPerBtc + 0.5
  {
    Transaction(id, userId, Buy, form.date, form.time, form.bitcoinAmount, SatoshisOf(form.bitcoinAmount),
                form.fiatAmount, form.fiatCurrency, form.bitcoinPrice, createdAt, Some(rates))
  }

  /** A record rewritten from the buy form during an edit: identity, kind and owner are kept. */
  function Edited(t: Transaction, form: BuyForm, rates: Rates): (e: Transaction)
    ensures e.id == t.id && e.kind == t.kind && e.userId == t.userId && e.createdAt == t.createdAt
    ensures e.exchangeRates == Some(rates) && e.date == form.date && e.time == form.time
    ensures e.bitcoinAmount == form.bitcoinAmount && e.satoshis == SatoshisOf(e.bitcoinAmount)
    ensures e.fiatAmount == form.fiatAmount && e.fiatCurrency == form.fiatCurrency
    ensures e.bitcoinPrice == form.bitcoinPrice
    ensures form.bitcoinAmount * SatsPerBtc - 0.5 < e.satoshis as real <= form.bitcoinAmount * SatsPerBtc + 0.5
  {
    t.(date := form.date, time := form.time, bitcoinAmount := form.bitcoinAmount,
       satoshis := SatoshisOf(form.bitcoinAmount), fiatAmount := form.fiatAmount,
       fiatCurrency := form.fiatCurrency, bitcoinPrice := form.bitcoinPrice, exchangeRates := Some(rates))
  }

  /** The ledger after editing: every record with the given id is rewritten from the form, every other record is kept. */
  function EditById(txs: seq<Transaction>, id: string, form: BuyForm, rates: Rates): (r: seq<Transaction>)
    ensures |r| == |txs|
    ensures forall i :: 0 <= i < |txs| && txs[i].id != id ==> r[i] == txs[i]
    ensures forall i :: 0 <= i < |txs| && txs[i].id == id ==>
      && r[i].id == id && r[i].kind == txs[i].kind && r[i].userId == txs[i].userId
      && r[i].createdAt == txs[i].createdAt
      && r[i].bitcoinAmount == form.bitcoinAmount && r[i].satoshis == SatoshisOf(form.bitcoinAmount)
      && r[i].fiatAmount == form.fiatAmount && r[i].fiatCurrency == form.fiatCurrency
      && r[i].bitcoinPrice == form.bitcoinPrice && r[i].exchangeRates == Some(rates)
      && r[i].date == form.date && r[i].time == form.time
  {
    if txs == [] then []
    else
      var n := |txs| - 1;
      var last := if txs[n].id == id then Edited(txs[n], form, rates) else txs[n];
      EditById(txs[..n], id, form, rates) + [last]
  }

  /** Editing twice with the same form is the same as editing once. */
  lemma {:induction false} EditIdempotent(txs: seq<Transaction>, id: string, form: BuyForm, rates: Rates)
    ensures EditById(EditById(txs, id, form, rates), id, form, rates) == EditById(txs, id, form, rates)
  {
    var once := EditById(txs, id, form, rates);
    var twice := EditById(once, id, form, rates);
    forall i | 0 <= i < |txs|
      ensures twice[i] == once[i]
    {
    }
  }

  /** Editing an id that no record carries leaves the ledger as it was. */
  lemma {:induction false} EditMissingId(txs: seq<Transaction>, id: string, form: BuyForm, rates: Rates)
    requires forall i :: 0 <= i < |txs| ==> txs[i].id != id
    ensures EditById(txs, id, form, rates) == txs
  {
  }

  /**
   * The ledger after deleting: the records whose id differs, in their
   * original order. The admin page filters its records the same way
   * (`Admin.Without`).
   */
  function DeleteById(txs: seq<Transaction>, id: string): (r: seq<Transaction>)
    ensures |r| <= |txs|
    ensures forall i :: 0 <= i < |r| ==> r[i].id != id
  {
    if txs == [] then []
    else
      var n := |txs| - 1;
      var front := DeleteById(txs[..n], id);
      if txs[n].id != id then front + [txs[n]] else front
  }

  /** Deleting keeps exactly the records whose id differs from the given one. */
  lemma {:induction false} DeleteByIdMembers(txs: seq<Transaction>, id: string)
    ensures forall t :: t in DeleteById(txs, id) <==> t in txs && t.id != id
  {
    if txs != [] {
      var n := |txs| - 1;
      DeleteByIdMembers(txs[..n], id);
      assert txs == txs[..n] + [txs[n]];
    }
  }

  /** Deleting distributes over concatenation, so the kept records stay in order. */
  lemma {:induction false} DeleteConcat(a: seq<Transaction>, b: seq<Transaction>, id: string)
    ensures DeleteById(a + b, id) == DeleteById(a, id) + DeleteById(b, id)
  {
    if b == [] {
      assert a + b == a;
    } else {
      var n := |b| - 1;
      DeleteConcat(a, b[..n], id);
      assert (a + b)[..|a + b| - 1] == a + b[..n];
    }
  }

  /** Deleting an id that no record carries leaves the ledger as it was. */
  lemma {:induction false} DeleteMissingId(txs: seq<Transaction>, id: string)
    requires forall i :: 0 <= i < |txs| ==> txs[i].id != id
    ensures DeleteById(txs, id) == txs
  {
    if txs != [] {
      var n := |txs| - 1;
      DeleteMissingId(txs[..n], id);
    }
  }

  /** Deleting the same id twice is the same as deleting it once. */
  lemma {:induction false} DeleteIdempotent(txs: seq<Transaction>, id: string)
    ensures DeleteById(DeleteById(txs, id), id) == DeleteById(txs, id)
  {
    DeleteMissingId(DeleteById(txs, id), id);
  }

  /** The record a confirmed sell form creates: bitcoin from satoshis, fiat at the form's price. */
  function NewSell(form: SellForm, id: string, userId: string, createdAt: string, rates: Rates): (t: Transaction)
    ensures t.id == id && t.userId == userId && t.kind == Sell && t.exchangeRates == Some(rates)
    ensures t.date == form.date && t.time == form.time && t.createdAt == createdAt
    ensures t.fiatCurrency == form.fiatCurrency && t.bitcoinPrice == form.bitcoinPrice
    ensures t.satoshis == form.satoshiAmount && t.bitcoinAmount * SatsPerBtc == form.satoshiAmount as real
    ensures t.fiatAmount == t.bitcoinAmount * form.bitcoinPrice
  {
    var bitcoinAmount := form.satoshiAmount as real / SatsPerBtc;
    Transaction(id, userId, Sell, form.date, form.time, bitcoinAmount, form.satoshiAmount,
                bitcoinAmount * form.bitcoinPrice, form.fiatCurrency, form.bitcoinPrice, createdAt, Some(rates))
  }

  /**
   * A record stamped with a table built from a rate reply without negative
   * quotes converts into any display currency, whatever the live table.
   */
  lemma {:induction false} StampedRecordConverts(t: Transaction, reply: Option<RateReply>, display: Currency, live: Rates)
    requires t.exchangeRates == Some(FetchedRates(reply))
    requires reply.Some? ==>
      NonNegativeQuote(reply.value.brl) && NonNegativeQuote(reply.value.eur) && NonNegativeQuote(reply.value.gbp)
    ensures Convertible(t, display, live)
  {
    FetchedRatesPositive(reply);
  }

  /** The running balance after appending one record. */
  lemma {:induction false} TotalSatoshisAppend(txs: seq<Transaction>, t: Transaction)
    ensures TotalSatoshis(txs + [t]) == TotalSatoshis(txs) + (if t.kind == Buy then t.satoshis else -t.satoshis)
  {
    assert (txs + [t])[..|txs|] == txs;
  }

  /** The balance is additive over concatenation of ledgers. */
  lemma {:induction false} TotalSatoshisConcat(a: seq<Transaction>, b: seq<Transaction>)
    ensures TotalSatoshis(a + b) == TotalSatoshis(a) + TotalSatoshis(b)
  {
    if b == [] {
      assert a + b == a;
    } else {
      var n := |b| - 1;
      TotalSatoshisConcat(a, b[..n]);
      assert a + b == (a + b[..n]) + [b[n]];
      TotalSatoshisAppend(a + b[..n], b[n]);
      assert b == b[..n] + [b[n]];
      TotalSatoshisAppend(b[..n], b[n]);
    }
  }

  /** A buy followed by a sell of the same satoshis nets to zero, in satoshis and in bitcoin. */
  lemma {:induction false} BuyThenSellNetsToZero(txs: seq<Transaction>, buy: Transaction, sell: Transaction)
    requires buy.kind == Buy && sell.kind == Sell && buy.satoshis == sell.satoshis
    ensures TotalSatoshis(txs + [buy, sell]) == TotalSatoshis(txs)
    ensures TotalSatoshis([buy, sell]) == 0 && TotalBitcoin([buy, sell]) == 0.0
  {
    TotalSatoshisAppend(txs, buy);
    assert txs + [buy, sell] == (txs + [buy]) + [sell];
    TotalSatoshisAppend(txs + [buy], sell);
    TotalSatoshisAppend([], buy);
    assert [buy, sell] == [buy] + [sell];
    TotalSatoshisAppend([buy], sell);
  }

  /**
   * The sell guard: a sell of more satoshis than the running balance is
   * rejected and the ledger is left as it was; otherwise the sell is
   * appended last, and the balance after it is never negative.
   */
  function AppendSell(txs: seq<Transaction>, sell: Transaction): (r: Result<seq<Transaction>, string>)
    requires sell.kind == Sell
    ensures r.Ok? <==> sell.satoshis <= TotalSatoshis(txs)
    ensures r.Err? ==> r.error == InsufficientSatoshis
    ensures r.Ok? ==> r.value == txs + [sell]
    ensures r.Ok? ==> TotalSatoshis(r.value) == TotalSatoshis(txs) - sell.satoshis >= 0
  {
    if sell.satoshis > TotalSatoshis(txs) then Err(InsufficientSatoshis)
    else
      TotalSatoshisAppend(txs, sell);
      Ok(txs + [sell])
  }
}
