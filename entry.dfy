/** Entering transactions by hand: `new_transaction` (fields given or asked
    for, and the second leg of a transfer), `prompt_for_string_change`, and
    `new_from_search` (a copy of a searched row, edited answer by answer). */
module Entry {
  import opened Ledger
  import opened Text
  import opened Selection
  import opened Balance

  /** `strptime` on a typed date whose year, month and day are separated by the
      given character: the day number, or nothing when the text does not
      parse. */
  type DateParser = (string, char) -> Option<int>

  /** `float()` on a typed amount, in thousandths; nothing when it does not
      parse. */
  type AmountParser = string -> Option<int>

  /** Python truthiness of an optional string: present and not empty. */
  predicate Given(s: Option<string>) {
    s.Some? && s.value != ""
  }

  // ---- new_transaction ----

  /** The separator `new_transaction` expects between year, month and day. */
  function Separator(dateText: string): (c: char)
    ensures c == '-' <==> '-' in dateText
    ensures c == '/' <==> '-' !in dateText
  {
    if '-' in dateText then '-' else '/'
  }

  /** The arguments of `new_transaction`; `amount` is in thousandths. */
  datatype NewArgs = NewArgs(
    dateText: string,
    amount: int,
    description: string,
    notes: Option<string>,
    account: Option<int>,
    category: Option<int>,
    num: Option<string>)

  /** The other leg of a transfer entered by hand. */
  function Mirror(t: Txn, transfer: int): (m: Txn)
    ensures m.account == transfer && m.transferAccount == Some(t.account)
    ensures m.amount == -t.amount && m.date == t.date
    ensures m.description == t.description && m.notes == t.notes && m.category == t.category
    ensures m.parent.None? && m.num.None? && !m.reconciled
  {
    Txn(transfer, None, t.description, -t.amount, t.date, None, t.notes, Some(t.account), false, t.category)
  }

  /** The other leg of the other leg is the first leg again, as far as the
      accounts, the amount and what is shown about it go. */
  lemma MirrorTwice(t: Txn, transfer: int)
    requires t.transferAccount == Some(transfer)
    ensures var m := Mirror(t, transfer);
      var back := Mirror(m, m.transferAccount.value);
      && back.account == t.account && back.transferAccount == t.transferAccount
      && back.amount == t.amount
      && back.date == t.date && back.description == t.description
      && back.notes == t.notes && back.category == t.category
  {
  }

  /** Every prompt of `new_transaction` up to the save: the date is parsed
      first (a ValueError reads no answer), an account and a category are
      asked for only when not given, the transfer account is always asked
      for, and the notes only when none were given. A row without an account
      cannot be saved (IntegrityError). The result is the row to save and
      the transfer account picked. */
  function NewTransactionDraft(tables: Tables, parseDay: DateParser, store: Store, a: NewArgs, tokens: seq<string>): (r: (Outcome<(Txn, Option<int>)>, seq<string>))
    ensures IsSuffix(r.1, tokens)
    ensures parseDay(a.dateText, Separator(a.dateText)).None? ==> r == (Err(ValueError(a.dateText)), tokens)
    ensures r.0.Ok? ==>
      var (t, transfer) := r.0.value;
      && parseDay(a.dateText, Separator(a.dateText)) == Some(t.date.day) && t.date.minute == Noon
      && t.amount == a.amount && t.description == a.description && t.num == a.num
      && t.parent.None? && !t.reconciled && t.transferAccount == transfer
      && (a.account.Some? ==> t.account == a.account.value)
      && (a.category.Some? ==> t.category == a.category)
      && t.notes.Some? && (Given(a.notes) ==> t.notes == a.notes)
      && (transfer.Some? ==> CurrentBalance(store, transfer.value).Some?)
  {
    match parseDay(a.dateText, Separator(a.dateText))
    case None => (Err(ValueError(a.dateText)), tokens)
    case Some(day) =>
      var (account, r1) := if a.account.Some? then (Ok(a.account), tokens) else AccountReply(tables, store, tokens);
      if account.Err? then (Err(account.error), r1)
      else
        var (category, r2) := if a.category.Some? then (Ok(a.category), r1) else CategoryReply(tables, r1);
        SuffixTransitive(r2, r1, tokens);
        if category.Err? then (Err(category.error), r2)
        else
          var (transfer, r3) := AccountReply(tables, store, r2);
          SuffixTransitive(r3, r2, tokens);
          if transfer.Err? then (Err(transfer.error), r3)
          else
            var (notes, r4) := if Given(a.notes) then (Ok(a.notes.value), r3) else ReadLine(r3);
            SuffixTransitive(r4, r3, tokens);
            if notes.Err? then (Err(notes.error), r4)
            else if account.value.None? then (Err(IntegrityError), r4)
            else
              var t := Txn(account.value.value, None, a.description, a.amount, DateTime(day, Noon),
                           a.num, Some(notes.value), transfer.value, false, category.value);
              (Ok((t, transfer.value)), r4)
  }

  /** The saves that end `new_transaction`: the row, then the other leg when
      a transfer account was picked. */
  function SaveEntered(b: Books, t: Txn, transfer: Option<int>): (r: Books)
    ensures r.matched == b.matched
    ensures r.nextId == b.nextId + (if transfer.Some? then 2 else 1)
    ensures r.store.Keys == b.store.Keys + (if transfer.Some? then {b.nextId, b.nextId + 1} else {b.nextId})
    ensures r.store[b.nextId] == t
    ensures transfer.Some? ==> r.store[b.nextId + 1] == Mirror(t, transfer.value)
    ensures forall id :: id in b.store && id != b.nextId && id != b.nextId + 1 ==> r.store[id] == b.store[id]
  {
    var b1 := SaveNew(b, t);
    if transfer.Some? then SaveNew(b1, Mirror(t, transfer.value)) else b1
  }

  /** Saving a hand-entered row keeps the books valid and every stored row as
      it was, puts the amount on the row's account and takes it off the
      transfer account, and leaves every other balance alone; afterwards the
      row's account has a balance to show. */
  lemma {:induction false} SaveEnteredBalances(b: Books, t: Txn, transfer: Option<int>, x: int)
    requires BooksValid(b) && t.parent.None?
    ensures var r := SaveEntered(b, t, transfer);
      && BooksValid(r)
      && (forall id :: id in b.store ==> id in r.store && r.store[id] == b.store[id])
      && CurrentBalance(r.store, x).GetOr(0) ==
           CurrentBalance(b.store, x).GetOr(0)
           + (if x == t.account then t.amount else 0)
           - (if transfer == Some(x) then t.amount else 0)
      && CurrentBalance(r.store, t.account).Some?
  {
    var b1 := SaveNew(b, t);
    assert b.nextId !in b.store;
    BalanceAfterSave(b.store, x, b.nextId, t);
    BalanceAfterSave(b.store, t.account, b.nextId, t);
    if transfer.Some? {
      assert b1.nextId !in b1.store;
      var m := Mirror(t, transfer.value);
      BalanceAfterSave(b1.store, x, b1.nextId, m);
      BalanceAfterSave(b1.store, t.account, b1.nextId, m);
    }
  }

  /** `new_transaction` with account, category and notes given asks only for
      the transfer account; answering `none` saves the one row. */
  lemma AllGivenAsksForTransferOnly(tables: Tables, parseDay: DateParser, store: Store, a: NewArgs, day: int, answer: string, rest: seq<string>)
    requires parseDay(a.dateText, Separator(a.dateText)) == Some(day)
    requires a.account.Some? && a.category.Some? && Given(a.notes)
    requires IsNoneAnswer(answer)
    ensures NewTransactionDraft(tables, parseDay, store, a, [answer] + rest) ==
      (Ok((Txn(a.account.value, None, a.description, a.amount, DateTime(day, Noon), a.num, a.notes, None, false, a.category), None)), rest)
  {
    NoneSkipsLookup(tables, store, answer, rest);
  }

  /** Without notes given, the answer after the transfer prompt becomes the
      notes, the empty answer included. */
  lemma NotesAskedWhenMissing(tables: Tables, parseDay: DateParser, store: Store, a: NewArgs, day: int, answer: string, notes: string, rest: seq<string>)
    requires parseDay(a.dateText, Separator(a.dateText)) == Some(day)
    requires a.account.Some? && a.category.Some? && !Given(a.notes)
    requires IsNoneAnswer(answer)
    ensures var r := NewTransactionDraft(tables, parseDay, store, a, [answer, notes] + rest);
      r.0.Ok? && r.0.value.0.notes == Some(notes) && r.1 == rest
  {
    NoneSkipsLookup(tables, store, answer, [notes] + rest);
    assert ([answer, notes] + rest)[1..] == [notes] + rest;
    assert ([notes] + rest)[1..] == rest;
  }

  /** Without an account given, skipping the account prompt leads to
      IntegrityError at the save, after every other prompt. */
  lemma NoAccountCannotSave(tables: Tables, parseDay: DateParser, store: Store, a: NewArgs, day: int, skip1: string, skip2: string, rest: seq<string>)
    requires parseDay(a.dateText, Separator(a.dateText)) == Some(day)
    requires a.account.None? && a.category.Some? && Given(a.notes)
    requires IsNoneAnswer(skip1) && IsNoneAnswer(skip2)
    ensures NewTransactionDraft(tables, parseDay, store, a, [skip1, skip2] + rest) == (Err(IntegrityError), rest)
  {
    assert ([skip1, skip2] + rest)[1..] == [skip2] + rest;
    NoneSkipsLookup(tables, store, skip1, [skip2] + rest);
    NoneSkipsLookup(tables, store, skip2, rest);
  }

  // ---- prompt_for_string_change ----

  datatype TextField = Description | Notes | Num

  /** The value of a text field, as the row holds it. */
  function FieldValue(t: Txn, field: TextField): Option<string> {
    match field
    case Description => Some(t.description)
    case Notes => t.notes
    case Num => t.num
  }

  /** `prompt_for_string_change` given the answer: a non-empty answer becomes
      the field's value, an empty one keeps it, and nothing else changes. */
  function ChangeField(t: Txn, field: TextField, typed: string): (r: Txn)
    ensures typed == "" ==> r == t
    ensures typed != "" ==> FieldValue(r, field) == Some(typed)
    ensures forall f: TextField :: f != field ==> FieldValue(r, f) == FieldValue(t, f)
    ensures r.(description := t.description, notes := t.notes, num := t.num) == t
  {
    if typed == "" then t
    else match field
      case Description => t.(description := typed)
      case Notes => t.(notes := Some(typed))
      case Num => t.(num := Some(typed))
  }

  /** Typing the same answer twice is the same as typing it once. */
  lemma ChangeFieldIdempotent(t: Txn, field: TextField, typed: string)
    ensures ChangeField(ChangeField(t, field, typed), field, typed) == ChangeField(t, field, typed)
  {
  }

  /** Changes to different fields do not interfere. */
  lemma ChangeFieldsCommute(t: Txn, f: TextField, g: TextField, x: string, y: string)
    requires f != g
    ensures ChangeField(ChangeField(t, f, x), g, y) == ChangeField(ChangeField(t, g, y), f, x)
  {
  }

  // ---- new_from_search ----

  /** The row `new_from_search` starts from: the template's account, amount,
      description, notes and category, dated today at 12:00, not reconciled,
      with the account's next number when the template has a number and an
      empty number otherwise. */
  function Drafted(template: Txn, today: int, nextNumber: int -> string): (d: Txn)
    ensures d.account == template.account && d.amount == template.amount && d.category == template.category
    ensures d.description == template.description && d.notes == template.notes
    ensures d.date == DateTime(today, Noon) && !d.reconciled
    ensures d.parent.None? && d.transferAccount.None?
    ensures d.num == Some(if Given(template.num) then nextNumber(template.account) else "")
  {
    Txn(template.account, None, template.description, template.amount, DateTime(today, Noon),
        if Given(template.num) then Some(nextNumber(template.account)) else Some(""),
        template.notes, None, false, template.category)
  }

  /** The end of one pass through the editing prompts. */
  datatype EditStep =
    | Again(t: Txn)       // the prompts start over with this row
    | Quit                // `q`: nothing is saved
    | Accepted(t: Txn)    // this row is saved
    | Stop(error: Error)  // the run ends here

  /** What an editing pass may change: the date (always to 12:00 of a day),
      the amount, the three text fields, the account, and the reconciled flag
      (only from false to true). The category, the parent and the transfer
      account stay. */
  predicate Evolves(t: Txn, u: Txn) {
    && u.parent == t.parent && u.transferAccount == t.transferAccount && u.category == t.category
    && (u.date == t.date || u.date.minute == Noon)
    && (t.reconciled ==> u.reconciled)
  }

  /** The end of a pass after the account question: the category question
      reads the category's name before asking, so a row without a category
      raises AttributeError, and answering `n` there calls the category
      prompt with an argument it does not take (TypeError); then `y...` marks
      the row reconciled, and the last answer quits (`q...`), saves (empty,
      `Y...` or `y...`) or starts over (anything else). */
  function ReviewTail(t: Txn, tokens: seq<string>): (r: (EditStep, seq<string>))
    ensures IsSuffix(r.1, tokens)
    ensures (r.0.Again? || r.0.Accepted?) ==> Evolves(t, r.0.t)
    ensures r.0.Accepted? ==> r.0.t.category.Some?
  {
    if t.category.None? then (Stop(AttributeError), tokens)
    else if tokens == [] then (Stop(EOFError), [])
    else if StartsWith(tokens[0], 'n') then (Stop(TypeError), tokens[1..])
    else if |tokens| < 3 then (Stop(EOFError), [])
    else
      var u := if StartsWith(tokens[1], 'y') then t.(reconciled := true) else t;
      var accept := tokens[2];
      assert tokens[3..] == tokens[|tokens| - |tokens[3..]|..];
      if StartsWith(accept, 'q') then (Quit, tokens[3..])
      else if accept == "" || StartsWith(accept, 'Y') || StartsWith(accept, 'y') then (Accepted(u), tokens[3..])
      else (Again(u), tokens[3..])
  }

  /** The review after the three text fields: the account question (`n...`
      asks for another account, and none picked keeps the account), then
      the rest of the review. */
  function ReviewAfterFields(tables: Tables, store: Store, t: Txn, tokens: seq<string>): (r: (EditStep, seq<string>))
    ensures IsSuffix(r.1, tokens)
    ensures (r.0.Again? || r.0.Accepted?) ==> Evolves(t, r.0.t)
    ensures r.0.Accepted? ==> r.0.t.category.Some?
  {
    if tokens == [] then (Stop(EOFError), [])
    else
      var r1 := tokens[1..];
      var (account, r2) := if StartsWith(tokens[0], 'n') then AccountReply(tables, store, r1) else (Ok(None), r1);
      SuffixTransitive(r2, r1, tokens);
      if account.Err? then (Stop(account.error), r2)
      else
        var r := ReviewTail(if account.value.Some? then t.(account := account.value.value) else t, r2);
        SuffixTransitive(r.1, r2, tokens);
        r
  }

  /** The part of a pass after the amount: the description, notes and number
      answers, then the review. */
  function EditAfterAmount(tables: Tables, store: Store, t: Txn, tokens: seq<string>): (r: (EditStep, seq<string>))
    ensures IsSuffix(r.1, tokens)
    ensures (r.0.Again? || r.0.Accepted?) ==> Evolves(t, r.0.t)
    ensures r.0.Accepted? ==> r.0.t.category.Some?
  {
    if |tokens| < 3 then (Stop(EOFError), [])
    else
      var u := ChangeField(ChangeField(ChangeField(t, Description, tokens[0]), Notes, tokens[1]), Num, tokens[2]);
      var r := ReviewAfterFields(tables, store, u, tokens[3..]);
      SuffixTransitive(r.1, tokens[3..], tokens);
      r
  }

  /** One pass of the `while not handled` loop of `new_from_search`. A date
      that does not parse raises ValueError; an amount that does not parse
      starts the prompts over, keeping the new date. */
  function EditRound(tables: Tables, parseDay: DateParser, parseAmount: AmountParser, store: Store, t: Txn, tokens: seq<string>): (r: (EditStep, seq<string>))
    ensures IsSuffix(r.1, tokens) && (tokens != [] ==> |r.1| < |tokens|)
    ensures (r.0.Again? || r.0.Accepted?) ==> Evolves(t, r.0.t)
    ensures r.0.Accepted? ==> r.0.t.category.Some?
  {
    if tokens == [] then (Stop(EOFError), [])
    else if tokens[0] != "" && parseDay(tokens[0], '-').None? then (Stop(ValueError(tokens[0])), tokens[1..])
    else
      var dated := if tokens[0] == "" then t else t.(date := DateTime(parseDay(tokens[0], '-').value, Noon));
      if |tokens| == 1 then (Stop(EOFError), [])
      else if tokens[1] != "" && parseAmount(tokens[1]).None? then (Again(dated), tokens[2..])
      else
        var priced := if tokens[1] == "" then dated else dated.(amount := parseAmount(tokens[1]).value);
        var r := EditAfterAmount(tables, store, priced, tokens[2..]);
        SuffixTransitive(r.1, tokens[2..], tokens);
        r
  }

  /** The passes repeated until one does not start over. */
  function EditLoop(tables: Tables, parseDay: DateParser, parseAmount: AmountParser, store: Store, t: Txn, tokens: seq<string>): (r: (EditStep, seq<string>))
    ensures IsSuffix(r.1, tokens)
    ensures !r.0.Again?
    ensures r.0.Accepted? ==> Evolves(t, r.0.t) && r.0.t.category.Some?
    decreases |tokens|
  {
    var (step, rest) := EditRound(tables, parseDay, parseAmount, store, t, tokens);
    if step.Again? then
      var r := EditLoop(tables, parseDay, parseAmount, store, step.t, rest);
      SuffixTransitive(r.1, rest, tokens);
      r
    else (step, rest)
  }

  /** `new_from_search`: pick a template among the search results (none picked
      saves nothing), then edit the drafted copy; the result is the row
      saved, if any. */
  function NewFromSearch(tables: Tables, parseDay: DateParser, parseAmount: AmountParser, nextNumber: int -> string, items: seq<Txn>, today: int, store: Store, tokens: seq<string>): (r: (Outcome<Option<Txn>>, seq<string>))
    ensures IsSuffix(r.1, tokens)
    ensures r.0.Ok? && r.0.value.Some? ==>
      exists i :: 0 <= i < |items| && Evolves(Drafted(items[i], today, nextNumber), r.0.value.value)
    ensures r.0.Ok? && r.0.value.Some? ==> r.0.value.value.category.Some? && r.0.value.value.parent.None?
  {
    var (picked, r1) := SearchReply(|items|, tokens);
    if picked.Err? then (Err(picked.error), r1)
    else if picked.value.None? then (Ok(None), r1)
    else
      var (step, r2) := EditLoop(tables, parseDay, parseAmount, store, Drafted(items[picked.value.value], today, nextNumber), r1);
      SuffixTransitive(r2, r1, tokens);
      match step
      case Accepted(t) => (Ok(Some(t)), r2)
      case Quit => (Ok(None), r2)
      case Stop(e) => (Err(e), r2)
  }

  /** Entering through every prompt of a pass saves the row as it stands,
      provided it has a category. */
  lemma EnterThroughAccepts(tables: Tables, parseDay: DateParser, parseAmount: AmountParser, store: Store, t: Txn, rest: seq<string>)
    requires t.category.Some?
    ensures EditRound(tables, parseDay, parseAmount, store, t, ["", "", "", "", "", "", "", "", ""] + rest) == (Accepted(t), rest)
  {
    var tokens := ["", "", "", "", "", "", "", "", ""] + rest;
    var fields := ["", "", "", "", "", "", ""] + rest;
    var review := ["", "", "", ""] + rest;
    var tail := ["", "", ""] + rest;
    assert tail[3..] == rest;
    assert ReviewTail(t, tail) == (Accepted(t), rest);
    assert review[1..] == tail;
    assert ReviewAfterFields(tables, store, t, review) == (Accepted(t), rest);
    assert fields[3..] == review;
    assert EditAfterAmount(tables, store, t, fields) == (Accepted(t), rest);
    assert tokens[2..] == fields;
  }

  /** Picking a template and entering through every prompt saves the drafted
      copy: the template's account, amount, description, notes and category,
      dated today at 12:00. */
  lemma PickedTemplateSavedAsDrafted(tables: Tables, parseDay: DateParser, parseAmount: AmountParser, nextNumber: int -> string, items: seq<Txn>, today: int, store: Store, n: nat, rest: seq<string>)
    requires n < |items| && items[n].category.Some?
    ensures var r := NewFromSearch(tables, parseDay, parseAmount, nextNumber, items, today, store,
                                   [ShowInt(n), "", "", "", "", "", "", "", "", ""] + rest);
      && r == (Ok(Some(Drafted(items[n], today, nextNumber))), rest)
      && r.0.value.value.account == items[n].account && r.0.value.value.amount == items[n].amount
      && r.0.value.value.description == items[n].description && r.0.value.value.notes == items[n].notes
      && r.0.value.value.category == items[n].category && r.0.value.value.date == DateTime(today, Noon)
  {
    var after := ["", "", "", "", "", "", "", "", ""] + rest;
    assert [ShowInt(n), "", "", "", "", "", "", "", "", ""] + rest == [ShowInt(n)] + after;
    TypedPosition(|items|, n, after);
    EnterThroughAccepts(tables, parseDay, parseAmount, store, Drafted(items[n], today, nextNumber), rest);
  }

  /** A template without a category can never be saved: every pass that gets
      as far as the category prompt raises AttributeError. */
  lemma NoCategoryNeverSaved(tables: Tables, parseDay: DateParser, parseAmount: AmountParser, store: Store, t: Txn, tokens: seq<string>)
    requires t.category.None?
    ensures !EditLoop(tables, parseDay, parseAmount, store, t, tokens).0.Accepted?
  {
  }

  /** An amount that does not parse starts the prompts over with the new date
      kept. */
  lemma BadAmountStartsOver(tables: Tables, parseDay: DateParser, parseAmount: AmountParser, store: Store, t: Txn, date: string, amount: string, rest: seq<string>)
    requires date != "" && parseDay(date, '-').Some?
    requires amount != "" && parseAmount(amount).None?
    ensures EditRound(tables, parseDay, parseAmount, store, t, [date, amount] + rest) ==
      (Again(t.(date := DateTime(parseDay(date, '-').value, Noon))), rest)
  {
    assert ([date, amount] + rest)[2..] == rest;
  }

  /** Quitting saves nothing. */
  lemma QuitSavesNothing(tables: Tables, parseDay: DateParser, parseAmount: AmountParser, store: Store, t: Txn, rest: seq<string>)
    requires t.category.Some?
    ensures EditRound(tables, parseDay, parseAmount, store, t, ["", "", "", "", "", "", "", "", "q"] + rest) == (Quit, rest)
  {
    var tokens := ["", "", "", "", "", "", "", "", "q"] + rest;
    var fields := ["", "", "", "", "", "", "q"] + rest;
    var review := ["", "", "", "q"] + rest;
    var tail := ["", "", "q"] + rest;
    assert tail[3..] == rest;
    assert ReviewTail(t, tail) == (Quit, rest);
    assert review[1..] == tail;
    assert ReviewAfterFields(tables, store, t, review) == (Quit, rest);
    assert fields[3..] == review;
    assert EditAfterAmount(tables, store, t, fields) == (Quit, rest);
    assert tokens[2..] == fields;
  }
}
