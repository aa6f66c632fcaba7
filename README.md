# Bitcoin holding tracker: ledger model

This project models, in Dafny, the logic of a React Bitcoin-holding tracker. It covers two screen components.

- `src/ContentManager.backup.tsx` is the per-user ledger:
  - registration and login;
  - buy and sell transactions, each stamped with the exchange-rate table current when it was recorded;
  - cross-rate currency conversion through US dollars;
  - the signed running totals and the weighted-average buy and sell prices;
  - the unrealised profit or loss of a buy;
  - the lookup of a historical price closest to a given instant.
- `src/ContentManager.tsx` is the earlier single-portfolio admin page:
  - a published list of purchase records, with unsigned totals and a simpler profit or loss;
  - an editor that appends and deletes records on a working copy;
  - an admin login revealed by typing a secret digit sequence.

Money and bitcoin quantities are `real`; satoshis are `int`. JavaScript's `Math.round` is `floor(x + 1/2)`. A division the source leaves unguarded is handled in one of two ways:
- a conversion through a zero rate is excluded by a precondition (`CanConvert`);
- a profit percentage over a zero base becomes `None`. The source produces Infinity or NaN there.

Modules, one per file:

- `Wrappers` holds `Option` and `Result`.
- `Money` holds currencies, rate tables, the rate table built from a rate reply, conversion and satoshi rounding.
- `Ledger` holds the transaction record, the folds, the averages, profit/loss and the list rewrites. These are pure functions with lemmas.
- `PriceHistory` holds the closest-sample loop. It is a method with loop invariants.
- `Accounts` holds the registration guards and the login decision.
- `Portfolio` has the class `Screen`: the ledger screen's state and its actions.
- `Admin` holds the admin page's records, totals, profit/loss and the key-sequence gate.
- `AdminScreen` has the class `Screen`: the admin page's state and its handlers.

Each answer of the document store is a parameter:
- a write, or the pair of writes of a registration, is `saved`: true when it went through, false when it threw;
- a lookup or a load is an `Option`: None when it threw, or when the document does not exist.

The editing workflow has one behaviour worth knowing; the model keeps it as written.
- The edit button marks sells as well as buys (`src/ContentManager.backup.tsx:1753`).
- `addSellTransaction` neither reads nor clears that mark.
- So "editing" a sell appends a new sell.
- The next confirmed buy form then rewrites the marked sell in place, and the record keeps its kind, unless the buy form is first closed with its close button, which drops the mark (`Portfolio.Screen.CloseBuyForm`). See `Portfolio.Screen.AddSell` and `Portfolio.Screen.AddBuy`.

## Model

| member | source | states |
|---|---|---|
| Money.EffectiveRates | src/ContentManager.backup.tsx:214-215 | a transaction's own rate snapshot is used when present, the live table otherwise |
| Money.QuoteOr | src/ContentManager.backup.tsx:134-137 | a missing or zero quote is replaced by the fallback, any other quote is kept |
| Money.FetchedRates | src/ContentManager.backup.tsx:126-153 | the table built from a rate reply pins USD to 1; each other quote falls back to BRL 5, EUR 0.92 or GBP 0.79 when missing or zero; a failed request gives exactly the default table |
| Money.FetchedRatesPositive | src/ContentManager.backup.tsx:133-149 | when the reply carries no negative quote, the fetched table has only positive rates, so every conversion through it is defined |
| Money.Convert | src/ContentManager.backup.tsx:206-222 | equal currencies return the amount untouched, with no rate lookup, even through a table that could not convert; otherwise the amount is divided by the source rate and multiplied by the target rate |
| Money.ConvertKeepsDollarValue | src/ContentManager.backup.tsx:217-221 | over positive rates, a converted amount has the same value in dollars as the original |
| Money.SnapshotTakesPrecedence | src/ContentManager.backup.tsx:214-215 | with a snapshot present, the live table has no influence on a conversion |
| Money.ConvertRoundTrip | src/ContentManager.backup.tsx:206-222 | over positive rates, converting A to B and then B to A returns the original amount |
| Money.ConvertThroughUsd | src/ContentManager.backup.tsx:217-221 | when the table pins USD to 1, a direct conversion equals converting to USD first and then on to the target |
| Money.ConvertAdditive | src/ContentManager.backup.tsx:206-222 | converting a sum equals the sum of the conversions |
| Money.Round | src/ContentManager.backup.tsx:354 | `Math.round` yields the integer within one half of its argument, halves rounding up |
| Money.SatoshisOf | src/ContentManager.backup.tsx:354 | the satoshis derived from a bitcoin amount are within one half of amount × 1e8 |
| Money.SatoshisOfExact | src/ContentManager.backup.tsx:354 | a bitcoin amount that is a whole number of satoshis converts to exactly that number |
| Ledger.OfKind | src/ContentManager.backup.tsx:512 | the `type` filter keeps only rows of the requested kind, each drawn from the ledger, and never lengthens it |
| Ledger.OfKindMembers | src/ContentManager.backup.tsx:534 | the filter keeps exactly the ledger's rows of the requested kind |
| Ledger.OfKindConcat | src/ContentManager.backup.tsx:512 | filtering a ledger laid end to end gives the filtered parts laid end to end, so each kind keeps its ledger order |
| Ledger.TotalSatoshis | src/ContentManager.backup.tsx:482-488 | the signed balance adds a buy's satoshis and subtracts a sell's; its meaning is stated by TotalSatoshisSplit, TotalSatoshisAppend and TotalSatoshisConcat |
| Ledger.TotalSatoshisSplit | src/ContentManager.backup.tsx:482-488 | the signed running balance equals the satoshis bought minus the satoshis sold |
| Ledger.TotalBitcoin | src/ContentManager.backup.tsx:490-492 | the bitcoin balance times 1e8 is the satoshi balance; it is zero exactly when that balance is zero and positive exactly when it is positive |
| Ledger.TotalInvested | src/ContentManager.backup.tsx:494-508 | the net investment adds a buy's converted value and subtracts a sell's; its meaning is stated by TotalInvestedSplit |
| Ledger.TotalInvestedSplit | src/ContentManager.backup.tsx:494-508 | net invested equals the converted value of the buys minus the converted value of the sells |
| Ledger.AveragePrice | src/ContentManager.backup.tsx:511-552 | the average price of a kind is 0 when its rows hold no positive bitcoin total, and otherwise their converted fiat total over their satoshis/1e8 total, over that kind's rows only |
| Ledger.AverageBuyPrice | src/ContentManager.backup.tsx:511-530 | the average buy price is 0 when the buys hold no positive bitcoin total, and otherwise their converted fiat total over their satoshis/1e8 total |
| Ledger.AverageSellPrice | src/ContentManager.backup.tsx:533-552 | the average sell price is 0 when the sells hold no positive bitcoin total, and otherwise their converted fiat total over their satoshis/1e8 total |
| Ledger.AveragesOfEmptyLedger | src/ContentManager.backup.tsx:511-552 | an empty ledger has average buy and sell prices of exactly 0 |
| Ledger.AverageIgnoresOtherKind | src/ContentManager.backup.tsx:511-552 | appending a row of the other kind changes neither the filtered rows nor the average |
| Ledger.AverageBetween | src/ContentManager.backup.tsx:511-530 | when every row of the kind has a unit price between lo and hi, the weighted average lies between lo and hi |
| Ledger.AverageOfUniformPrice | src/ContentManager.backup.tsx:511-530 | when every row of the kind was traded at unit price p, the average is p |
| Ledger.ProfitLossOf | src/ContentManager.backup.tsx:577-595 | sells, and a current price of 0, give the sentinel {0, 0}; otherwise profit = bitcoin × price − converted original value; profit is positive (negative) exactly when the current value exceeds (falls short of) the original; the percentage exists exactly when the original value is non-zero and is profit/original × 100 |
| Ledger.PercentageSign | src/ContentManager.backup.tsx:591-592 | for a buy of positive original value, the percentage has the sign of the profit |
| Ledger.NewBuy | src/ContentManager.backup.tsx:354-390 | a new buy carries the given id, owner and creation time, the form's date, time, bitcoin amount, fiat amount, fiat currency and price, and the rate table; its own satoshis are Math.round of its bitcoin amount × 1e8, hence within one half of it |
| Ledger.Edited | src/ContentManager.backup.tsx:360-373 | a rewritten record keeps its id, kind, owner and creation time and takes the form's date, time, bitcoin amount, fiat amount, fiat currency and price and the new rate table; its satoshis are Math.round of the new bitcoin amount × 1e8 |
| Ledger.EditById | src/ContentManager.backup.tsx:360-374 | editing keeps the length and every record with another id; each record with the edited id keeps its id, kind, owner and creation time and takes every field of the form, the derived satoshis and the new rate table |
| Ledger.EditIdempotent | src/ContentManager.backup.tsx:360-374 | editing twice with the same form equals editing once |
| Ledger.EditMissingId | src/ContentManager.backup.tsx:360-374 | editing an id that no record carries leaves the ledger unchanged |
| Ledger.DeleteById | src/ContentManager.backup.tsx:472 | deleting never lengthens the ledger and leaves no record with the id |
| Ledger.DeleteByIdMembers | src/ContentManager.backup.tsx:472 | deleting keeps exactly the records whose id differs |
| Ledger.DeleteConcat | src/ContentManager.backup.tsx:472 | deleting distributes over concatenation, so the kept records stay in their order |
| Ledger.DeleteMissingId | src/ContentManager.backup.tsx:472 | deleting an id that no record carries leaves the ledger unchanged |
| Ledger.DeleteIdempotent | src/ContentManager.backup.tsx:472 | deleting the same id twice equals deleting it once |
| Ledger.NewSell | src/ContentManager.backup.tsx:428-444 | a new sell carries the given id, owner and creation time, the form's date, time, fiat currency and price, and the rate table; it records the form's satoshis, bitcoin = satoshis/1e8 and fiat = bitcoin × price |
| Ledger.StampedRecordConverts | src/ContentManager.backup.tsx:348-447 | a record stamped with a table fetched from a reply with no negative quote converts into every display currency |
| Ledger.TotalSatoshisAppend | src/ContentManager.backup.tsx:482-488 | appending a buy adds its satoshis to the balance, and appending a sell subtracts them |
| Ledger.TotalSatoshisConcat | src/ContentManager.backup.tsx:482-488 | the balance of two ledgers laid end to end is the sum of their balances |
| Ledger.BuyThenSellNetsToZero | src/ContentManager.backup.tsx:482-492 | a buy followed by a sell of the same satoshis leaves the balance unchanged, and on its own nets to 0 satoshis and 0 bitcoin |
| Ledger.AppendSell | src/ContentManager.backup.tsx:416-447 | a sell is accepted exactly when its satoshis do not exceed the balance; a rejected sell gives the insufficient-satoshis error; an accepted one is appended last, and the new balance is the old one minus its satoshis and never negative |
| PriceHistory.ClosestPrice | src/ContentManager.backup.tsx:177-187 | the result is the price of a sample at minimal distance from target × 1000, and every earlier sample is strictly farther, so ties go to the earliest sample |
| PriceHistory.HistoricalPrice | src/ContentManager.backup.tsx:156-203 | a failed request or an empty list gives the fallback price; USD gives the closest price; another currency gives the closest price times its rate (a missing or zero rate counts as 1), or the fallback when the rate request fails |
| PriceHistory.RateOrOne | src/ContentManager.backup.tsx:195 | a present non-zero rate is kept, and a missing or zero rate reads as exactly 1, so the result is never zero |
| Accounts.Utf16Length | src/ContentManager.backup.tsx:236 | the JavaScript length of a string lies between its number of characters and twice that |
| Accounts.Utf16LengthOne | src/ContentManager.backup.tsx:236 | a single character has length 1, or 2 when it lies beyond U+FFFF |
| Accounts.Utf16LengthConcat | src/ContentManager.backup.tsx:236 | the length of two strings laid end to end is the sum of their lengths, which with the one-character case fixes the length of every string |
| Accounts.Utf16LengthOfBasicPlane | src/ContentManager.backup.tsx:236 | the JavaScript length equals the number of characters exactly when every character lies in the basic plane |
| Accounts.ValidateRegistration | src/ContentManager.backup.tsx:226-239 | the guards run in order: an empty field gives the required-fields error; otherwise a differing confirmation gives the mismatch error; otherwise a password under 6 UTF-16 code units gives the too-short error; otherwise the form passes |
| Accounts.ThreeAstralCharactersAreLongEnough | src/ContentManager.backup.tsx:236 | a password of three characters beyond the basic plane has length 6 and passes the guards |
| Accounts.Register | src/ContentManager.backup.tsx:225-279 | registration succeeds exactly when the form passes, the lookup answers that the name is free and both writes go through; the new user carries the id, the name and the digest of the password; a failing guard gives its message, a taken name the taken-name message, and a failed lookup or write the account-creation error |
| Accounts.Login | src/ContentManager.backup.tsx:282-324 | login succeeds exactly when both fields are filled, the lookup finds a user and its stored digest equals the password's digest, and it yields that user, whose name is the one typed; empty fields, a failed lookup, no user and a wrong digest each give their own message |
| Accounts.RegisterThenLogin | src/ContentManager.backup.tsx:254-306 | a user registered with a password logs in with that same password, whatever the digest function |
| Portfolio.Screen.constructor | src/ContentManager.backup.tsx:42-66 | on mount nobody is signed in, the ledger is empty and every live rate is 1 |
| Portfolio.Screen.RegisterUser | src/ContentManager.backup.tsx:225-279 | a registration that goes through makes the new user current and clears the error; any refusal or failure keeps the current user and sets the error to its message |
| Portfolio.Screen.LoginUser | src/ContentManager.backup.tsx:282-337 | a login that goes through makes the user current, clears the error and replaces the in-memory ledger by a stored one, keeping it when none was read; any refusal or failure keeps the user and the ledger and sets the error to its message |
| Portfolio.Screen.Logout | src/ContentManager.backup.tsx:340-345 | logout forgets the user and empties the in-memory ledger |
| Portfolio.Screen.BeginEdit | src/ContentManager.backup.tsx:1753 | the edit button marks the record that the buy form will rewrite |
| Portfolio.Screen.CloseBuyForm | src/ContentManager.backup.tsx:874-878 | closing the buy form drops the edit mark |
| Portfolio.Screen.RefreshRates | src/ContentManager.backup.tsx:126-153 | a rate refresh, on mount or every five minutes, makes the table built from the reply the live table |
| Portfolio.Screen.AddBuy | src/ContentManager.backup.tsx:348-413 | without a user nothing changes; otherwise the fetched table becomes live; once saved, the ledger is the edit of the marked id or the old ledger plus a new buy stamped with that table, and the mark is cleared; a failed write keeps the ledger and the mark and sets the save error |
| Portfolio.Screen.AddSell | src/ContentManager.backup.tsx:416-465 | without a user or with a price of 0 nothing changes; a sell above the balance only sets the error; otherwise the fetched table becomes live, and once saved the sell is appended last, the balance drops by its satoshis and stays non-negative, and the error is cleared; a failed write keeps the ledger and sets the error |
| Portfolio.Screen.Delete | src/ContentManager.backup.tsx:468-479 | without a user nothing changes; once saved the ledger is the old one without the id's records; a failed write keeps it and sets the error |
| Admin.NewRecord | src/ContentManager.tsx:68-78 | a new record carries the id and the form's amounts, with satoshis within one half of amount × 1e8 and non-negative for a non-negative amount |
| Admin.AddRecord | src/ContentManager.tsx:67-83 | adding gives exactly one record more, last, with the earlier records and the page texts unchanged |
| Admin.RemoveRecord | src/ContentManager.tsx:97-102 | deleting keeps exactly the records with another id and leaves the page texts unchanged |
| Admin.Without | src/ContentManager.tsx:100 | the id filter never lengthens the list and leaves no record with the id |
| Admin.WithoutMembers | src/ContentManager.tsx:100 | the id filter keeps exactly the records with another id |
| Admin.WithoutConcat | src/ContentManager.tsx:100 | the id filter distributes over concatenation, so the kept records stay in order |
| Admin.WithoutMissing | src/ContentManager.tsx:100 | filtering out an id no record carries changes nothing |
| Admin.RemoveUndoesAdd | src/ContentManager.tsx:67-102 | deleting a record just added under a fresh id gives back the content as it was before the add |
| Admin.TotalSatoshis | src/ContentManager.tsx:105 | the plain sum of the satoshis; its meaning is stated by TotalsConcat, AddRecordTotals and TotalSatoshisNonNegative |
| Admin.TotalBitcoin | src/ContentManager.tsx:105-106 | the bitcoin total times 1e8 is the satoshi total |
| Admin.TotalFiat | src/ContentManager.tsx:107 | the plain sum of the fiat amounts whatever their currencies; its meaning is stated by TotalsConcat and AddRecordTotals |
| Admin.TotalsConcat | src/ContentManager.tsx:105-107 | the satoshi and fiat totals of two lists laid end to end are the sums of their totals |
| Admin.AddRecordTotals | src/ContentManager.tsx:67-107 | adding a record adds its satoshis and its fiat amount to the totals; a non-negative purchase never lowers the satoshi total |
| Admin.TotalSatoshisNonNegative | src/ContentManager.tsx:105 | with no negative quantities the satoshi total is not negative |
| Admin.WithoutNeverRaisesTotal | src/ContentManager.tsx:97-105 | with no negative quantities, deleting records never raises the satoshi total |
| Admin.RecordProfitLoss | src/ContentManager.tsx:132-140 | a price of 0 gives {0, 0}; otherwise profit = bitcoin × price − fiat amount, with the sign of current value minus fiat amount; the percentage exists exactly when the fiat amount is non-zero and is profit/fiat × 100 |
| Admin.PressKey | src/ContentManager.tsx:198-213 | keys are ignored while the admin is signed in or the login is shown, and keys without a digit are ignored; otherwise the login shows exactly when buffer + key is the secret; a combined buffer shorter than the secret is kept, and any other is cleared; the buffer is always shorter than the secret afterwards |
| Admin.TypingIgnored | src/ContentManager.tsx:199 | while the admin is signed in, or once the login shows, no amount of typing changes the gate |
| Admin.BufferStaysShort | src/ContentManager.tsx:204-211 | whatever is typed, a buffer shorter than the secret stays shorter than it |
| Admin.PressNextSecretKey | src/ContentManager.tsx:201-211 | pressing the next digit of the secret after a proper prefix of it extends the prefix, and the last digit reveals the login with an empty buffer |
| Admin.TypingSecretPrefix | src/ContentManager.tsx:198-213 | typing the first k digits of the secret from a fresh state leaves exactly those digits in the buffer, with the login hidden |
| Admin.TypingSecretRevealsLogin | src/ContentManager.tsx:198-213 | typing the secret from a fresh state reveals the login and clears the buffer |
| Admin.CredentialsMatch | src/ContentManager.tsx:220-222 | the login form matches exactly when it equals the stored credentials in both fields |
| AdminScreen.Screen.constructor | src/ContentManager.tsx:30-62 | on mount the buffer is empty, nothing is shown or signed in, the credentials are admin/admin123, the default page has no records, and the working copy equals it |
| AdminScreen.Screen.Loaded | src/ContentManager.tsx:146-164 | on load a stored page replaces both the published content and the working copy, stored credentials replace the defaults, and whatever was not read keeps its value; the key buffer stays shorter than the secret, as in every handler |
| AdminScreen.Screen.HandleKeyPress | src/ContentManager.tsx:198-213 | a keypress updates the buffer and the login flag exactly as the gate does, and keeps the buffer shorter than the secret |
| AdminScreen.Screen.HandleLogin | src/ContentManager.tsx:219-231 | matching username and password sign the admin in, hide the login, clear the error and the form; otherwise only the error is set, and the admin flag, the login flag and the form keep their values |
| AdminScreen.Screen.HandleLogout | src/ContentManager.tsx:233-237 | logout leaves admin mode, edit mode and the credentials editor |
| AdminScreen.Screen.StartEditing | src/ContentManager.tsx:429-431 | editing starts on a fresh copy of the published content |
| AdminScreen.Screen.AddBitcoinRecord | src/ContentManager.tsx:67-83 | the working copy gets exactly the record the form describes, appended last |
| AdminScreen.Screen.DeleteRecord | src/ContentManager.tsx:97-102 | the working copy loses every record with the id |
| AdminScreen.Screen.HandleSaveContent | src/ContentManager.tsx:239-248 | once stored, the working copy is published and editing ends; a failed write changes neither |
| AdminScreen.Screen.HandleCancelEdit | src/ContentManager.tsx:250-253 | cancelling restores the working copy to the published content and ends editing |
| AdminScreen.Screen.HandleUpdateCredentials | src/ContentManager.tsx:255-268 | only when both new fields are filled and the write succeeds do they replace the credentials, close the editor and clear its form; otherwise nothing changes |
| AdminScreen.Screen.ContentChanged | src/ContentManager.tsx:169-177 | a content update from the store is published, and replaces the working copy only when not editing |

## Left out

- Document-store I/O is not modelled: reads, writes, queries and the live listener's subscription. A write's outcome is the `saved` parameter; a load's result is a parameter.
- Network requests are not modelled: the exchange-rate, spot-price and historical-price services are replies passed in as parameters. The timers that schedule the refreshes are left out; one rate refresh is `Portfolio.Screen.RefreshRates`.
- Password hashing (SHA-512) is the `digest` function parameter. Session storage in the browser is left out.
- Identifiers and creation times come from the clock and a random source. They are parameters. The resetting of forms to today's date and time after a save is left out.
- Floating point is not modelled: IEEE-754 rounding, `toFixed` and locale formatting, parsing of form input, and NaN/Infinity propagation. Quantities are exact reals.
- Currency codes form a closed set of four. The source indexes its rate object by arbitrary strings, and an unknown code yields NaN. The admin page's free-form currency code is kept as a string, and it is never converted.
- The timestamp computed from the date and time fields is not modelled; `HistoricalPrice` receives the target instant in seconds.
- Rendering, alerts, dialogs and the install banner are not modelled. The flags that only show or hide forms are not modelled either, except those the admin page's handlers set.
- Money.Convert: the source divides by a zero source rate and yields Infinity or NaN. The model requires a non-zero source rate (`CanConvert`) instead of producing a value.
- Ledger.ProfitLossOf, Admin.RecordProfitLoss: the source divides by a zero original value and yields Infinity or NaN. The model returns no percentage (`None`) in that case.
- Ledger.TotalInvestedSplit, Ledger.AveragePrice: these require every converted row to have a non-zero source rate, for the same reason as `Money.Convert`.
- Money.FetchedRates: the reply is reduced to three optional numeric quotes. A non-numeric quote, which `||` would also pass through, is not representable.
- Ledger.TotalSatoshis, Ledger.TotalInvested, Admin.TotalSatoshis, Admin.TotalFiat: the folds carry no `ensures` of their own. What they compute is stated by the lemmas named in their rows.
- Accounts.Register: the two writes of a registration are one `saved` flag. When the user record is stored and the empty ledger is not, the source shows the error although the account exists; the model does not tell the two writes apart.
- Accounts.Login: the lookup's first user is passed in, and `FoundUnder` requires it to carry the name asked for, as the query guarantees. The query's ordering among several users with one name is not modelled.
- Restoring a signed-in session from browser storage on mount is not modelled.
