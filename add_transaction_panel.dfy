/** AddTransactionPanel: the entry form. Save validates the three text
    fields, makes payments negative, stores one record through the shared
    ledger model and clears the form. The amount parser (Double.parseDouble
    read as cents) and the clock are parameters. */
module EntryForm {
  import opened Wrappers
  import opened Text
  import opened Transactions
  import opened Sorting
  import opened Store
  import opened LedgerModel

  /** The two warning dialogs. */
  datatype EntryError = MissingFields | InvalidAmount

  /** The sign rule: a payment is stored as minus its magnitude, a deposit
      as entered. */
  function SignedAmount(parsed: int, isDeposit: bool): (stored: int)
    ensures isDeposit ==> stored == parsed
    ensures !isDeposit ==> stored <= 0 && (stored == parsed || stored == -parsed)
  {
    if isDeposit then parsed else if parsed < 0 then parsed else -parsed
  }

  /** What Save makes of the form: the record it stores, or the dialog it
      shows instead. */
  function Entry(description: string, vendor: string, amountText: string, isDeposit: bool,
                 parse: string -> Option<int>, today: Date, now: Time): (outcome: Result<Transaction, EntryError>)
    ensures outcome.Failure? <==>
      Trim(description) == "" || Trim(vendor) == "" || Trim(amountText) == "" || parse(Trim(amountText)).None?
    ensures outcome == Failure(MissingFields) <==>
      Trim(description) == "" || Trim(vendor) == "" || Trim(amountText) == ""
    ensures outcome == Failure(InvalidAmount) <==>
      Trim(description) != "" && Trim(vendor) != "" && Trim(amountText) != "" && parse(Trim(amountText)).None?
    ensures outcome.Success? ==>
      && outcome.value.date == today && outcome.value.time == now
      && outcome.value.description == Trim(description) && outcome.value.vendor == Trim(vendor)
      && outcome.value.amount == SignedAmount(parse(Trim(amountText)).value, isDeposit)
  {
    var desc, v, text := Trim(description), Trim(vendor), Trim(amountText);
    if desc == "" || v == "" || text == "" then Failure(MissingFields)
    else match parse(text)
      case None => Failure(InvalidAmount)
      case Some(amount) => Success(Transaction(today, now, desc, v, SignedAmount(amount, isDeposit)))
  }

  class AddTransactionPanel {
    const model: LedgerTableModel
    var description: string
    var vendor: string
    var amountText: string
    /** The Deposit radio button; Payment is the other one of the group. */
    var depositSelected: bool

    constructor (model: LedgerTableModel)
      ensures this.model == model
      ensures description == "" && vendor == "" && amountText == "" && depositSelected
    {
      this.model := model;
      description, vendor, amountText := "", "", "";
      depositSelected := true;
    }

    /** The checks at the top of onSave: the three trimmed fields must be
        non-empty and the amount must parse; a payment is made negative. */
    method Validate(parse: string -> Option<int>, today: Date, now: Time)
      returns (outcome: Result<Transaction, EntryError>)
      ensures outcome == Entry(description, vendor, amountText, depositSelected, parse, today, now)
    {
      var desc := Trim(description);
      var v := Trim(vendor);
      var text := Trim(amountText);
      if desc == "" || v == "" || text == "" {
        return Failure(MissingFields);
      }
      var parsed := parse(text);
      if parsed.None? {
        return Failure(InvalidAmount);
      }
      var amount := parsed.value;
      if !depositSelected {
        amount := if amount < 0 then amount else -amount;
      }
      return Success(Transaction(today, now, desc, v, amount));
    }

    /** onSave. On a failure nothing is stored and the form keeps its text;
        on success exactly one record is appended to the store, the ledger
        model is reloaded and the three fields are cleared. */
    method OnSave(store: TransactionStore, parse: string -> Option<int>, today: Date, now: Time)
      returns (outcome: Result<Transaction, EntryError>)
      requires model.Valid()
      modifies this`description, this`vendor, this`amountText, model, store
      ensures outcome == Entry(old(description), old(vendor), old(amountText), old(depositSelected), parse, today, now)
      ensures outcome.Failure? ==>
        && store.rows == old(store.rows) && unchanged(model)
        && description == old(description) && vendor == old(vendor) && amountText == old(amountText)
      ensures outcome.Success? ==>
        && store.rows == old(store.rows) + [outcome.value]
        && model.Valid() && model.filter == old(model.filter)
        && model.all == SortNewestFirst(ByDateTime, store.Load())
        && outcome.value in model.all
        && description == "" && vendor == "" && amountText == ""
    {
      outcome := Validate(parse, today, now);
      if outcome.Success? {
        Commit(store, outcome.value);
      }
    }

    /** The success path of onSave: hand the record to the ledger model,
        which stores it and reloads, then clear the three fields. */
    method Commit(store: TransactionStore, t: Transaction)
      requires model.Valid()
      modifies this`description, this`vendor, this`amountText, model, store
      ensures store.rows == old(store.rows) + [t]
      ensures model.Valid() && model.filter == old(model.filter)
      ensures model.all == SortNewestFirst(ByDateTime, store.Load())
      ensures t in model.all
      ensures description == "" && vendor == "" && amountText == ""
    {
      model.AddTransaction(store, t);
      description, vendor, amountText := "", "", "";
    }
  }

  /** A blank amount is reported as missing, not invalid, whatever the
      parser would say: the emptiness check runs first. */
  lemma BlankAmountIsMissing(description: string, vendor: string, amountText: string, isDeposit: bool,
                             parse: string -> Option<int>, today: Date, now: Time)
    requires Trim(amountText) == ""
    ensures Entry(description, vendor, amountText, isDeposit, parse, today, now) == Failure(MissingFields)
  {
  }

  /** A payment is never stored positive, whatever sign was typed; a deposit
      typed negative stays negative. */
  lemma StoredSign(description: string, vendor: string, amountText: string, isDeposit: bool,
                   parse: string -> Option<int>, today: Date, now: Time)
    requires Entry(description, vendor, amountText, isDeposit, parse, today, now).Success?
    ensures !isDeposit ==> Entry(description, vendor, amountText, isDeposit, parse, today, now).value.amount <= 0
    ensures isDeposit && parse(Trim(amountText)).value < 0 ==>
      Entry(description, vendor, amountText, isDeposit, parse, today, now).value.amount < 0
  {
  }

  /** A saved record has a non-empty, already trimmed description and
      vendor. */
  lemma SavedTextIsTrimmed(description: string, vendor: string, amountText: string, isDeposit: bool,
                           parse: string -> Option<int>, today: Date, now: Time)
    requires Entry(description, vendor, amountText, isDeposit, parse, today, now).Success?
    ensures var t := Entry(description, vendor, amountText, isDeposit, parse, today, now).value;
      t.description != "" && Trim(t.description) == t.description
      && t.vendor != "" && Trim(t.vendor) == t.vendor
  {
    TrimIdempotent(description);
    TrimIdempotent(vendor);
  }

  /** A payment whose fields are already trimmed and whose amount parses
      to a non-negative value is stored as its negation. */
  lemma SavedPayment(description: string, vendor: string, amountText: string,
                     parse: string -> Option<int>, today: Date, now: Time)
    requires Trim(description) == description != "" && Trim(vendor) == vendor != ""
    requires Trim(amountText) != "" && parse(Trim(amountText)).Some? && parse(Trim(amountText)).value >= 0
    ensures Entry(description, vendor, amountText, false, parse, today, now)
         == Success(Transaction(today, now, description, vendor, -parse(Trim(amountText)).value))
  {
  }
}
