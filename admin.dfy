/**
 * The single-portfolio admin variant, src/ContentManager.tsx: its record
 * list and the list rewrites of the editor, the unsigned totals, the
 * profit/loss of a record, and the secret key sequence that reveals the
 * admin login.
 */
module Admin {
  import opened Wrappers
  import opened Money
  import opened Ledger

  /** One purchase of the published portfolio; the currency is a free-form code here. */
  datatype Record = Record(
    id: string,
    date: string,
    time: string,
    bitcoinAmount: real,
    satoshis: int,
    fiatAmount: real,
    fiatCurrency: string,
    bitcoinPrice: real)

  /** The new-record form as the admin confirms it. */
  datatype RecordForm = RecordForm(
    date: string,
    time: string,
    bitcoinAmount: real,
    fiatAmount: real,
    fiatCurrency: string,
    bitcoinPrice: real)

  /** The published page: three texts and the record list. */
  datatype Content = Content(title: string, subtitle: string, description: string, records: seq<Record>)

  datatype Credentials = Credentials(username: string, password: string)

  // ---------------------------------------------------------------------
  // Record list rewrites
  // ---------------------------------------------------------------------

  /** The record a confirmed form creates, with satoshis = round(bitcoinAmount * 1e8). */
  function NewRecord(form: RecordForm, id: string): (r: Record)
    ensures r.id == id && r.bitcoinAmount == form.bitcoinAmount && r.fiatAmount == form.fiatAmount
    ensures form.bitcoinAmount * SatsPerBtc - 0.5 < r.satoshis as real <= form.bitcoinAmount * SatsPerBtc + 0.5
    ensures form.bitcoinAmount >= 0.0 ==> r.satoshis >= 0
  {
    Record(id, form.date, form.time, form.bitcoinAmount, SatoshisOf(form.bitcoinAmount),
           form.fiatAmount, form.fiatCurrency, form.bitcoinPrice)
  }

  /** addBitcoinRecord: exactly one record more, last; texts and earlier records untouched. */
  function AddRecord(c: Content, form: RecordForm, id: string): (r: Content)
    ensures r.title == c.title && r.subtitle == c.subtitle && r.description == c.description
    ensures |r.records| == |c.records| + 1
    ensures r.records[..|c.records|] == c.records
    ensures r.records[|c.records|] == NewRecord(form, id)
  {
    c.(records := c.records + [NewRecord(form, id)])
  }

  /** The records whose id differs from the given one, in their original order; the ledger's `Ledger.DeleteById` is the same filter. */
  function Without(records: seq<Record>, id: string): (r: seq<Record>)
    ensures |r| <= |records|
    ensures forall i :: 0 <= i < |r| ==> r[i].id != id
  {
    if records == [] then []
    else
      var n := |records| - 1;
      var front := Without(records[..n], id);
      if records[n].id != id then front + [records[n]] else front
  }

  /** deleteRecord: the record list filtered by id; the texts are untouched. */
  function RemoveRecord(c: Content, id: string): (r: Content)
    ensures r.title == c.title && r.subtitle == c.subtitle && r.description == c.description
    ensures forall x :: x in r.records <==> x in c.records && x.id != id
  {
    WithoutMembers(c.records, id);
    c.(records := Without(c.records, id))
  }

  /** Removal keeps exactly the records with another id. */
  lemma {:induction false} WithoutMembers(records: seq<Record>, id: string)
    ensures forall x :: x in Without(records, id) <==> x in records && x.id != id
  {
    if records != [] {
      var n := |records| - 1;
      WithoutMembers(records[..n], id);
      assert records == records[..n] + [records[n]];
    }
  }

  /** Removal distributes over concatenation, so the kept records keep their order. */
  lemma {:induction false} WithoutConcat(a: seq<Record>, b: seq<Record>, id: string)
    ensures Without(a + b, id) == Without(a, id) + Without(b, id)
  {
    if b == [] {
      assert a + b == a;
    } else {
      var n := |b| - 1;
      WithoutConcat(a, b[..n], id);
      assert (a + b)[..|a + b| - 1] == a + b[..n];
    }
  }

  /** Deleting the record just added, when no other record shares its id, gives back the list before the add. */
  lemma {:induction false} RemoveUndoesAdd(c: Content, form: RecordForm, id: string)
    requires forall i :: 0 <= i < |c.records| ==> c.records[i].id != id
    ensures RemoveRecord(AddRecord(c, form, id), id) == c
  {
    WithoutConcat(c.records, [NewRecord(form, id)], id);
    WithoutMissing(c.records, id);
    assert Without([NewRecord(form, id)], id) == [];
  }

  /** Removing an id no record carries changes nothing. */
  lemma {:induction false} WithoutMissing(records: seq<Record>, id: string)
    requires forall i :: 0 <= i < |records| ==> records[i].id != id
    ensures Without(records, id) == records
  {
    if records != [] {
      WithoutMissing(records[..|records| - 1], id);
    }
  }

  // ---------------------------------------------------------------------
  // Unsigned totals
  // ---------------------------------------------------------------------

  /** totalSatoshis: the plain sum of every record's satoshis. */
  function TotalSatoshis(records: seq<Record>): int
  {
    if records == [] then 0 else TotalSatoshis(records[..|records| - 1]) + records[|records| - 1].satoshis
  }

  /** totalBitcoin: the satoshi total in bitcoin. */
  function TotalBitcoin(records: seq<Record>): (btc: real)
    ensures btc * SatsPerBtc == TotalSatoshis(records) as real
  {
    TotalSatoshis(records) as real / SatsPerBtc
  }

  /** totalFiat: the plain sum of the fiat amounts, whatever their currencies. */
  function TotalFiat(records: seq<Record>): real
  {
    if records == [] then 0.0 else TotalFiat(records[..|records| - 1]) + records[|records| - 1].fiatAmount
  }

  /** Both totals are additive over concatenation. */
  lemma {:induction false} TotalsConcat(a: seq<Record>, b: seq<Record>)
    ensures TotalSatoshis(a + b) == TotalSatoshis(a) + TotalSatoshis(b)
    ensures TotalFiat(a + b) == TotalFiat(a) + TotalFiat(b)
  {
    if b == [] {
      assert a + b == a;
    } else {
      var n := |b| - 1;
      TotalsConcat(a, b[..n]);
      assert (a + b)[..|a + b| - 1] == a + b[..n];
    }
  }

  /** Adding a record adds its satoshis and its fiat amount; a non-negative purchase never lowers the total. */
  lemma {:induction false} AddRecordTotals(c: Content, form: RecordForm, id: string)
    ensures var r := AddRecord(c, form, id).records;
      && TotalSatoshis(r) == TotalSatoshis(c.records) + NewRecord(form, id).satoshis
      && TotalFiat(r) == TotalFiat(c.records) + form.fiatAmount
      && (form.bitcoinAmount >= 0.0 ==> TotalSatoshis(r) >= TotalSatoshis(c.records))
  {
    var r := AddRecord(c, form, id).records;
    assert r[..|r| - 1] == c.records;
  }

  /** With no negative quantities, the satoshi total is never negative. */
  lemma {:induction false} TotalSatoshisNonNegative(records: seq<Record>)
    requires forall i :: 0 <= i < |records| ==> records[i].satoshis >= 0
    ensures TotalSatoshis(records) >= 0
  {
    if records != [] {
      TotalSatoshisNonNegative(records[..|records| - 1]);
    }
  }

  /** With no negative quantities, deleting records never raises the satoshi total. */
  lemma {:induction false} WithoutNeverRaisesTotal(records: seq<Record>, id: string)
    requires forall i :: 0 <= i < |records| ==> records[i].satoshis >= 0
    ensures TotalSatoshis(Without(records, id)) <= TotalSatoshis(records)
  {
    if records != [] {
      var n := |records| - 1;
      WithoutNeverRaisesTotal(records[..n], id);
      if records[n].id != id {
        var front := Without(records[..n], id);
        assert (front + [records[n]])[..|front|] == front;
      }
    }
  }

  // ---------------------------------------------------------------------
  // Profit / loss of one record
  // ---------------------------------------------------------------------

  /**
   * calculateProfitLoss of this variant: no conversion, the record's fiat
   * amount is compared as is. A price of 0 gives {0, 0}; a fiat amount of 0
   * leaves the percentage undefined.
   */
  function RecordProfitLoss(record: Record, currentPrice: real): (r: ProfitLoss)
    ensures currentPrice == 0.0 ==> r == NotApplicable
    ensures currentPrice != 0.0 ==>
      var current := record.bitcoinAmount * currentPrice;
      && r.profit == current - record.fiatAmount
      && (r.profit > 0.0 <==> current > record.fiatAmount)
      && (r.profit < 0.0 <==> current < record.fiatAmount)
      && (r.percentage.Some? <==> record.fiatAmount != 0.0)
      && (r.percentage.Some? ==> r.percentage.value * record.fiatAmount == r.profit * 100.0)
  {
    if currentPrice == 0.0 then NotApplicable
    else
      var current := record.bitcoinAmount * currentPrice;
      var profit := current - record.fiatAmount;
      var percentage := if record.fiatAmount == 0.0 then None
                        else Some((current - record.fiatAmount) / record.fiatAmount * 100.0);
      ProfitLoss(profit, percentage)
  }

  // ---------------------------------------------------------------------
  // The secret key sequence
  // ---------------------------------------------------------------------

  /** The digits that, typed in a row, reveal the admin login. */
  const Secret := "59387063"

  /** `/[0-9]/.test(key)`: the key text contains a digit somewhere. */
  predicate HasDigit(key: string)
  {
    exists i :: 0 <= i < |key| && '0' <= key[i] <= '9'
  }

  /** The part of the screen state the key handler reads and writes. */
  datatype Gate = Gate(buffer: string, showLogin: bool)

  /**
   * One keypress. Keys are ignored while the admin is signed in or the
   * login is shown, and keys without a digit are ignored. Otherwise the key
   * is appended to the buffer: the secret reveals the login and clears the
   * buffer, and any other buffer of the secret's length or longer is
   * cleared.
   */
  function PressKey(g: Gate, isAdmin: bool, key: string): (r: Gate)
    ensures isAdmin || g.showLogin || !HasDigit(key) ==> r == g
    ensures !isAdmin && !g.showLogin && HasDigit(key) ==>
      && (r.showLogin <==> g.buffer + key == Secret)
      && |r.buffer| < |Secret|
      && (|g.buffer + key| < |Secret| ==> r.buffer == g.buffer + key)
      && (|g.buffer + key| >= |Secret| ==> r.buffer == "")
  {
    if isAdmin || g.showLogin || !HasDigit(key) then g
    else
      var next := g.buffer + key;
      if next == Secret then Gate("", true)
      else if |next| >= |Secret| then Gate("", false)
      else Gate(next, false)
  }

  /** The state after typing the characters of `typed` one keypress each. */
  function PressTyped(g: Gate, isAdmin: bool, typed: string): Gate
  {
    if typed == [] then g
    else
      var n := |typed| - 1;
      PressKey(PressTyped(g, isAdmin, typed[..n]), isAdmin, [typed[n]])
  }

  /** While the admin is signed in, or once the login is shown, typing changes nothing. */
  lemma {:induction false} TypingIgnored(g: Gate, isAdmin: bool, typed: string)
    requires isAdmin || g.showLogin
    ensures PressTyped(g, isAdmin, typed) == g
  {
    if typed != [] {
      TypingIgnored(g, isAdmin, typed[..|typed| - 1]);
    }
  }

  /** However much is typed, a buffer shorter than the secret stays shorter than it. */
  lemma {:induction false} BufferStaysShort(g: Gate, isAdmin: bool, typed: string)
    requires |g.buffer| < |Secret|
    ensures |PressTyped(g, isAdmin, typed).buffer| < |Secret|
  {
    if typed != [] {
      BufferStaysShort(g, isAdmin, typed[..|typed| - 1]);
    }
  }

  /** Every character of the secret is a digit, so each keypress of it passes the digit test. */
  lemma {:induction false} SecretKeysHaveDigits(j: nat)
    requires j < |Secret|
    ensures HasDigit([Secret[j]])
  {
    assert '0' <= Secret[j] <= '9';
    assert [Secret[j]][0] == Secret[j];
  }

  /** Pressing the next digit of the secret after a proper prefix of it. */
  lemma {:induction false} PressNextSecretKey(k: nat)
    requires k < |Secret|
    ensures PressKey(Gate(Secret[..k], false), false, [Secret[k]])
         == (if k + 1 == |Secret| then Gate("", true) else Gate(Secret[..k + 1], false))
  {
    SecretKeysHaveDigits(k);
    assert Secret[..k] + [Secret[k]] == Secret[..k + 1];
    assert Secret[..|Secret|] == Secret;
  }

  /** Typing the first k digits of the secret from a fresh state leaves exactly them in the buffer. */
  lemma {:induction false} TypingSecretPrefix(k: nat)
    requires k < |Secret|
    ensures PressTyped(Gate("", false), false, Secret[..k]) == Gate(Secret[..k], false)
  {
    if k > 0 {
      TypingSecretPrefix(k - 1);
      var typed := Secret[..k];
      assert typed[..k - 1] == Secret[..k - 1];
      assert typed[k - 1] == Secret[k - 1];
      var before := PressTyped(Gate("", false), false, Secret[..k - 1]);
      assert before == Gate(Secret[..k - 1], false);
      assert PressTyped(Gate("", false), false, typed) == PressKey(before, false, [Secret[k - 1]]);
      PressNextSecretKey(k - 1);
    }
  }

  /** Typing the secret from a fresh state reveals the login and clears the buffer. */
  lemma {:induction false} TypingSecretRevealsLogin()
    ensures PressTyped(Gate("", false), false, Secret) == Gate("", true)
  {
    var n := |Secret| - 1;
    TypingSecretPrefix(n);
    assert Secret[..n + 1] == Secret;
    assert Secret[..n] == Secret[..|Secret| - 1];
    PressNextSecretKey(n);
  }

  /** The credential comparison of handleLogin: both fields must equal the stored ones. */
  predicate CredentialsMatch(form: Credentials, stored: Credentials)
    ensures CredentialsMatch(form, stored) <==> form == stored
  {
    form.username == stored.username && form.password == stored.password
  }
}
