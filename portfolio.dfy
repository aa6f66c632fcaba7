/**
 * The ledger screen of src/ContentManager.backup.tsx as a state holder:
 * the signed-in user, the in-memory copy of the ledger, the record being
 * edited, the live rate table and the error message. Each action builds a
 * new ledger and, once the store has accepted the write (`saved`),
 * replaces the old one.
 */
module Portfolio {
  import opened Wrappers
  import opened Money
  import opened Ledger
  import opened Accounts

  const SaveBuyFailed := "Erro ao salvar compra"
  const SaveSellFailed := "Erro ao registrar venda"
  const DeleteFailed := "Erro ao deletar transação"

  class Screen {
    var currentUser: Option<User>
    var transactions: seq<Transaction>
    var editing: Option<Transaction>
    var liveRates: Rates
    var error: string

    /** The state on mount: nobody signed in, an empty ledger, every rate 1. */
    constructor ()
      ensures currentUser.None? && transactions == [] && editing.None? && error == ""
      ensures liveRates == Rates(1.0, 1.0, 1.0, 1.0)
    {
      currentUser := None;
      transactions := [];
      editing := None;
      liveRates := Rates(1.0, 1.0, 1.0, 1.0);
      error := "";
    }

    /**
     * registerUser: a registration that goes through signs the new user in
     * and clears the error; any refusal or store failure only sets the
     * error to its message. The in-memory ledger is left as it was,
     * although the stored ledger of the new user starts empty.
     */
    method RegisterUser(form: RegisterForm, taken: Option<bool>, saved: bool, id: string, createdAt: string,
                        digest: string -> string)
      modifies this`currentUser, this`error
      ensures var r := Register(form, taken, saved, id, createdAt, digest);
        && (r.Ok? ==> currentUser == Some(r.value) && error == "")
        && (r.Err? ==> currentUser == old(currentUser) && error == r.error)
    {
      var r := Register(form, taken, saved, id, createdAt, digest);
      if r.Ok? {
        currentUser := Some(r.value);
        error := "";
      } else {
        error := r.error;
      }
    }

    /**
     * loginUser followed by the ledger load: a login that goes through
     * signs the user in, clears the error and replaces the in-memory
     * ledger by the stored one (`stored`, None when there is no ledger
     * document or it could not be read, which keeps the in-memory one);
     * any refusal or store failure only sets the error to its message.
     */
    method LoginUser(username: string, password: string, lookup: Option<Option<User>>,
                     stored: Option<seq<Transaction>>, digest: string -> string)
      requires FoundUnder(username, lookup)
      modifies this`currentUser, this`error, this`transactions
      ensures var r := Login(username, password, lookup, digest);
        && (r.Ok? ==> currentUser == Some(r.value) && error == ""
                      && transactions == if stored.Some? then stored.value else old(transactions))
        && (r.Err? ==> currentUser == old(currentUser) && transactions == old(transactions) && error == r.error)
    {
      var r := Login(username, password, lookup, digest);
      if r.Err? {
        error := r.error;
        return;
      }
      currentUser := Some(r.value);
      error := "";
      if stored.Some? {
        transactions := stored.value;
      }
    }

    /** The buy form's close button: the edit mark is dropped, so the next buy is appended. */
    method CloseBuyForm()
      modifies this`editing
      ensures editing.None?
    {
      editing := None;
    }

    /**
     * fetchExchangeRates on its own, as run on mount and every five
     * minutes: the table built from `reply` becomes the live table.
     */
    method RefreshRates(reply: Option<RateReply>)
      modifies this`liveRates
      ensures liveRates == FetchedRates(reply)
    {
      liveRates := FetchedRates(reply);
    }

    /** Logout: forget the user and the in-memory ledger. */
    method Logout()
      modifies this
      ensures currentUser.None? && transactions == []
      ensures editing == old(editing) && liveRates == old(liveRates) && error == old(error)
    {
      currentUser := None;
      transactions := [];
    }

    /** The edit button: remember which record the buy form will rewrite. */
    method BeginEdit(t: Transaction)
      modifies this`editing
      ensures editing == Some(t)
    {
      editing := Some(t);
    }

    /**
     * addBuyTransaction. Without a user nothing happens. Otherwise the rate
     * table built from `reply` becomes the live table and is stamped on the
     * record; when editing, every record with the edited id is rewritten
     * from the form, else a new buy is appended last. A failed write sets
     * the error and keeps the ledger.
     */
    method AddBuy(form: BuyForm, newId: string, createdAt: string, reply: Option<RateReply>, saved: bool)
      modifies this
      ensures old(currentUser).None? ==> unchanged(this)
      ensures currentUser == old(currentUser)
      ensures old(currentUser).Some? ==> liveRates == FetchedRates(reply)
      ensures old(currentUser).Some? && saved ==>
        && transactions == (if old(editing).Some?
                            then EditById(old(transactions), old(editing).value.id, form, FetchedRates(reply))
                            else old(transactions) + [NewBuy(form, newId, old(currentUser).value.id, createdAt, FetchedRates(reply))])
        && editing.None? && error == old(error)
      ensures old(currentUser).Some? && !saved ==>
        transactions == old(transactions) && editing == old(editing) && error == SaveBuyFailed
    {
      if currentUser.None? {
        return;
      }
      var fetched := FetchedRates(reply);
      liveRates := fetched;
      var updated;
      if editing.Some? {
        updated := EditById(transactions, editing.value.id, form, fetched);
      } else {
        updated := transactions + [NewBuy(form, newId, currentUser.value.id, createdAt, fetched)];
      }
      if saved {
        transactions := updated;
        editing := None;
      } else {
        error := SaveBuyFailed;
      }
    }

    /**
     * addSellTransaction. Nothing happens without a user or with a price of
     * 0. A sell of more satoshis than the balance only sets the error.
     * Otherwise the rate table built from `reply` becomes live and, once
     * saved, the sell is appended last and the error cleared; the balance
     * after it is the old balance minus the sold satoshis, and is never
     * negative. The edit mark is neither read nor cleared here.
     */
    method AddSell(form: SellForm, newId: string, createdAt: string, reply: Option<RateReply>, saved: bool)
      modifies this
      ensures old(currentUser).None? || form.bitcoinPrice == 0.0 ==> unchanged(this)
      ensures currentUser == old(currentUser) && editing == old(editing)
      ensures old(currentUser).Some? && form.bitcoinPrice != 0.0 && form.satoshiAmount > TotalSatoshis(old(transactions)) ==>
        transactions == old(transactions) && liveRates == old(liveRates) && error == InsufficientSatoshis
      ensures old(currentUser).Some? && form.bitcoinPrice != 0.0 && form.satoshiAmount <= TotalSatoshis(old(transactions)) ==>
        && liveRates == FetchedRates(reply)
        && (saved ==> transactions == old(transactions) + [NewSell(form, newId, old(currentUser).value.id, createdAt, FetchedRates(reply))]
                      && TotalSatoshis(transactions) == TotalSatoshis(old(transactions)) - form.satoshiAmount >= 0
                      && error == "")
        && (!saved ==> transactions == old(transactions) && error == SaveSellFailed)
    {
      if currentUser.None? || form.bitcoinPrice == 0.0 {
        return;
      }
      if form.satoshiAmount > TotalSatoshis(transactions) {
        error := InsufficientSatoshis;
        return;
      }
      liveRates := FetchedRates(reply);
      var sell := NewSell(form, newId, currentUser.value.id, createdAt, liveRates);
      var attempt := AppendSell(transactions, sell);
      if saved {
        transactions := attempt.value;
        error := "";
      } else {
        error := SaveSellFailed;
      }
    }

    /** deleteTransaction: once saved, every record with the id is gone; a failed write only sets the error. */
    method Delete(id: string, saved: bool)
      modifies this
      ensures old(currentUser).None? ==> unchanged(this)
      ensures currentUser == old(currentUser) && editing == old(editing) && liveRates == old(liveRates)
      ensures old(currentUser).Some? && saved ==> transactions == DeleteById(old(transactions), id) && error == old(error)
      ensures old(currentUser).Some? && !saved ==> transactions == old(transactions) && error == DeleteFailed
    {
      if currentUser.None? {
        return;
      }
      if saved {
        transactions := DeleteById(transactions, id);
      } else {
        error := DeleteFailed;
      }
    }

  }
}
