/** The interactive session: the transaction table, the id the next save
    receives, and the operator's answers still to be read (what `input()`
    returns, in order). Each prompt is a method that reads answers one at a
    time and changes the table in place, and each is proved to end in the
    state the functions of the other modules describe. */
module Prompt {
  import opened Ledger
  import opened Text
  import opened Selection
  import opened Balance
  import opened Reconcile
  import opened Entry

  class Session {
    var store: Store
    var nextId: int
    /** `matched_pks`: the ids claimed so far in the current import run. */
    var matched: set<int>
    var input: seq<string>
    const tables: Tables

    ghost function Books(): Books
      reads this
    {
      Ledger.Books(store, nextId, matched)
    }

    /** Every stored id was handed out before `nextId`, and every claimed id
        names a stored row. */
    ghost predicate Valid()
      reads this
    {
      BooksValid(Books())
    }

    constructor (tables: Tables, store: Store, nextId: int, input: seq<string>)
      requires forall id :: id in store ==> id < nextId
      ensures Valid()
      ensures this.tables == tables && this.store == store && this.nextId == nextId && this.input == input
      ensures matched == {}
    {
      this.tables := tables;
      this.store := store;
      this.nextId := nextId;
      this.matched := {};
      this.input := input;
    }

    /** `input()`. */
    method Read() returns (answer: Outcome<string>)
      modifies this
      ensures (answer, input) == ReadLine(old(input))
      ensures store == old(store) && nextId == old(nextId) && matched == old(matched)
    {
      if input == [] {
        answer := Err(EOFError);
      } else {
        answer := Ok(input[0]);
        input := input[1..];
      }
    }

    /** `save()` of a new row, which receives the next id. */
    method Save(t: Txn) returns (id: int)
      requires Valid()
      modifies this
      ensures Valid()
      ensures id == old(nextId) && id !in old(store)
      ensures store == old(store)[id := t] && nextId == old(nextId) + 1 && input == old(input) && matched == old(matched)
    {
      id := nextId;
      store := store[id := t];
      nextId := nextId + 1;
    }

    /** `prompt_by_name` over a table listed by `names`: the position of the
        picked entry, or none. */
    method PromptByName(names: seq<string>) returns (item: Outcome<Option<nat>>)
      modifies this
      ensures (item, input) == ByNameReply(names, old(input))
      ensures store == old(store) && nextId == old(nextId) && matched == old(matched)
    {
      item := Ok(None);
      var handled := false;
      while !handled
        invariant store == old(store) && nextId == old(nextId) && matched == old(matched)
        invariant !handled ==> item == Ok(None) && ByNameReply(names, input) == ByNameReply(names, old(input))
        invariant handled ==> (item, input) == ByNameReply(names, old(input))
        decreases |input|, !handled
      {
        ghost var before := input;
        var query := Read();
        if query.Err? {
          return Err(EOFError);
        }
        if IsNoneAnswer(query.value) {
          handled := true;
        } else {
          var found := Matching(names, query.value);
          var select := Read();
          if select.Err? {
            return Err(EOFError);
          }
          assert before == [query.value, select.value] + input;
          assert before[2..] == input;
          if IsNoneAnswer(select.value) {
            handled := true;
          } else {
            var index := ParseInt(select.value);
            if index.Some? && 0 <= index.value < |found| {
              item := Ok(Some(found[index.value]));
              handled := true;
            }
          }
        }
      }
    }

    /** `prompt_for_category`. */
    method PromptForCategory() returns (category: Outcome<Option<int>>)
      modifies this
      ensures (category, input) == CategoryReply(tables, old(input))
      ensures store == old(store) && nextId == old(nextId) && matched == old(matched)
    {
      var pick := PromptByName(tables.CategoryNames());
      if pick.Err? {
        return Err(pick.error);
      }
      category := Ok(tables.CategoryAt(pick.value));
    }

    /** `prompt_for_account`, which shows the balance of the account picked. */
    method PromptForAccount() returns (account: Outcome<Option<int>>)
      modifies this
      ensures (account, input) == AccountReply(tables, old(store), old(input))
      ensures store == old(store) && nextId == old(nextId) && matched == old(matched)
    {
      var pick := PromptByName(tables.AccountNames());
      if pick.Err? {
        return Err(pick.error);
      }
      var picked := tables.AccountAt(pick.value);
      if picked.Some? && CurrentBalance(store, picked.value).None? {
        return Err(TypeError);
      }
      account := Ok(picked);
    }

    /** `search`: the row picked among the rows `searchTxn` finds, or none. */
    method Search(searchTxn: string -> seq<Txn>, query: string) returns (item: Outcome<Option<Txn>>)
      modifies this
      ensures var items := searchTxn(query);
        var (pick, rest) := SearchReply(|items|, old(input));
        && input == rest
        && (pick.Err? ==> item == Err(pick.error))
        && (pick.Ok? ==> item == Ok(if pick.value.Some? then Some(items[pick.value.value]) else None))
      ensures store == old(store) && nextId == old(nextId) && matched == old(matched)
    {
      var items := searchTxn(query);
      item := Ok(None);
      var handled := false;
      while !handled
        invariant store == old(store) && nextId == old(nextId) && matched == old(matched)
        invariant !handled ==> item == Ok(None) && SearchReply(|items|, input) == SearchReply(|items|, old(input))
        invariant handled ==>
          var (pick, rest) := SearchReply(|items|, old(input));
          input == rest && pick.Ok? && item == Ok(if pick.value.Some? then Some(items[pick.value.value]) else None)
        decreases |input|, !handled
      {
        ghost var before := input;
        var select := Read();
        if select.Err? {
          return Err(EOFError);
        }
        assert before == [select.value] + input;
        assert before[1..] == input;
        if IsNoneAnswer(select.value) {
          handled := true;
        } else {
          var index := ParseInt(select.value);
          if index.Some? && 0 <= index.value < |items| {
            item := Ok(Some(items[index.value]));
            handled := true;
          }
        }
      }
    }

    // ---- load_transactions ----

    /** The `while not handled` loop for a record with candidate matches. */
    method AskAboutMatches(count: nat) returns (step: MatchStep)
      modifies this
      ensures (step, input) == MatchRound(count, old(input))
      ensures store == old(store) && nextId == old(nextId) && matched == old(matched)
    {
      step := AcceptShown;
      var handled := false;
      while !handled
        invariant store == old(store) && nextId == old(nextId) && matched == old(matched)
        invariant !handled ==> MatchRound(count, input) == MatchRound(count, old(input))
        invariant handled ==> (step, input) == MatchRound(count, old(input))
        decreases |input|, !handled
      {
        var answer := Read();
        if answer.Err? {
          return Raise(EOFError);
        }
        if StartsWith(answer.value, 's') {
          step := AcceptShown;
          handled := true;
        }
        if StartsWith(answer.value, 'r') || StartsWith(answer.value, 'i') {
          var index := ParseInt(answer.value[1..]);
          if index.None? {
            return Raise(ValueError(answer.value[1..]));
          }
          if 0 <= index.value < count {
            step := Choose(index.value, answer.value[0] == 'r');
            handled := true;
          }
        }
      }
    }

    /** The `n` answer for a record without matches: the candidate completed
        from the category, transfer account, cleared, description and notes
        answers. */
    method CompleteCandidate(candidate: Txn) returns (d: Decision)
      modifies this
      ensures (d, input) == FromScratch(tables, old(store), candidate, old(input))
      ensures store == old(store) && nextId == old(nextId) && matched == old(matched)
    {
      var picks := PromptForCategoryOrTransferAccount();
      if picks.Err? {
        return Abort(picks.error);
      }
      d := ReadLastAnswers(candidate, picks.value.0, picks.value.1);
    }

    /** `prompt_for_category_or_transfer_account`. */
    method PromptForCategoryOrTransferAccount() returns (picks: Outcome<(Option<int>, Option<int>)>)
      modifies this
      ensures (picks, input) == CategoryAndTransfer(tables, old(store), old(input))
      ensures store == old(store) && nextId == old(nextId) && matched == old(matched)
    {
      var category := PromptForCategory();
      if category.Err? {
        return Err(category.error);
      }
      var transfer := PromptForAccount();
      if transfer.Err? {
        return Err(transfer.error);
      }
      picks := Ok((category.value, transfer.value));
    }

    /** The cleared, description and notes answers, applied to the candidate
        field by field. */
    method ReadLastAnswers(candidate: Txn, category: Option<int>, transfer: Option<int>) returns (d: Decision)
      modifies this
      ensures (d, input) == LastAnswers(candidate, category, transfer, old(input))
      ensures store == old(store) && nextId == old(nextId) && matched == old(matched)
    {
      ghost var answers := input;
      var cleared := Read();
      if cleared.Err? {
        return Abort(EOFError);
      }
      var description := Read();
      if description.Err? {
        return Abort(EOFError);
      }
      var notes := Read();
      if notes.Err? {
        return Abort(EOFError);
      }
      assert answers == [cleared.value, description.value, notes.value] + input;
      assert answers[3..] == input;
      var t := candidate.(category := category, transferAccount := transfer);
      t := t.(reconciled := !IsNoAnswer(cleared.value));
      if |description.value| > 1 {
        t := t.(description := description.value);
      }
      if |notes.value| > 1 {
        t := t.(notes := Some(notes.value));
      }
      d := Create(t);
    }

    /** The `while not handled_txn` loop for a record without matches. */
    method AskWithoutMatches<R(!new)>(h: Helpers<R>, candidate: Txn, record: R, toAccount: int) returns (d: Decision)
      modifies this
      ensures (d, input) == NoMatchRound(tables, h, old(store), candidate, record, toAccount, old(input))
      ensures store == old(store) && nextId == old(nextId) && matched == old(matched)
    {
      d := Leave;
      var handled := false;
      while !handled
        invariant store == old(store) && nextId == old(nextId) && matched == old(matched)
        invariant !handled ==>
          NoMatchRound(tables, h, store, candidate, record, toAccount, input) ==
          NoMatchRound(tables, h, store, candidate, record, toAccount, old(input))
        invariant handled ==> (d, input) == NoMatchRound(tables, h, store, candidate, record, toAccount, old(input))
        decreases |input|, !handled
      {
        ghost var before := input;
        var addNew := Read();
        if addNew.Err? {
          return Abort(EOFError);
        }
        if addNew.value == "n" || addNew.value == "N" {
          d := CompleteCandidate(candidate);
          handled := true;
        } else if addNew.value == "s" || addNew.value == "S" {
          var query := Read();
          if query.Err? {
            return Abort(EOFError);
          }
          assert before[2..] == input;
          if |query.value| > 2 {
            var template := Search(h.searchTxn, query.value);
            if template.Err? {
              return Abort(template.error);
            }
            if template.value.Some? {
              d := Create(h.fromTemplate(template.value.value, record).(account := toAccount));
              handled := true;
            }
          }
        } else {
          d := Leave;
          handled := true;
        }
      }
    }

    /** The body of the loop over the records, up to what it decides. */
    method HandleRecord<R(!new)>(h: Helpers<R>, toAccount: int, record: R) returns (d: Decision)
      requires FinderSound(h.find)
      modifies this
      ensures (d, input) == Reconcile.HandleRecord(tables, h, toAccount, old(Books()), record, old(input))
      ensures store == old(store) && nextId == old(nextId) && matched == old(matched)
    {
      var found := h.find(store, matched, record);
      assert FoundIn(found, store);
      if |found.possibles| > 0 {
        if |found.possibles| == 1 && store[found.possibles[0]].reconciled {
          d := Claim(found.possibles[0]);
        } else {
          var step := AskAboutMatches(|found.possibles|);
          d := FromMatchStep(found.possibles, step);
        }
      } else {
        d := AskWithoutMatches(h, found.candidate, record, toAccount);
      }
    }

    /** What a decision does: mark a row reconciled and save it, or save a new
        row; the id concerned joins `matched`. */
    method Carry(d: Decision)
      requires Valid() && ((d.Claim? || d.MarkReconciled?) ==> d.id in store)
      modifies this
      ensures Valid()
      ensures Books() == Apply(old(Books()), d)
      ensures input == old(input)
    {
      match d {
        case Claim(id) =>
          matched := matched + {id};
        case MarkReconciled(id) =>
          store := store[id := store[id].(reconciled := true)];
          matched := matched + {id};
        case Create(t) =>
          var id := Save(t);
          matched := matched + {id};
        case Leave =>
        case Abort(_) =>
      }
    }

    /** `load_transactions` over the records of one file. */
    method LoadTransactions<R(!new)>(h: Helpers<R>, toAccount: int, records: seq<R>) returns (status: Status)
      requires Valid() && FinderSound(h.find)
      modifies this
      ensures Valid()
      ensures var r := Reconcile.LoadTransactions(tables, h, toAccount, old(Books()), records, old(input));
        Books() == r.books && input == r.rest && status == r.status
    {
      matched := {};
      if CurrentBalance(store, toAccount).None? {
        return Failed(TypeError);
      }
      ghost var final := Batch(tables, h, toAccount, Books(), records, input);
      var i := 0;
      while i < |records|
        invariant 0 <= i <= |records| && Valid()
        invariant var r := Batch(tables, h, toAccount, Books(), records[i..], input);
          r.books == final.books && r.rest == final.rest && r.status == final.status
      {
        assert records[i..][0] == records[i] && records[i..][1..] == records[i + 1..];
        var d := HandleRecord(h, toAccount, records[i]);
        if d.Abort? {
          return Failed(d.error);
        }
        ApplyKeepsValid(Books(), d);
        Carry(d);
        i := i + 1;
      }
      return Done;
    }

    // ---- new_transaction ----

    /** The prompts of `new_transaction`, up to the row to save and the
        transfer account picked. */
    method AskNewTransaction(parseDay: DateParser, a: NewArgs) returns (draft: Outcome<(Txn, Option<int>)>)
      modifies this
      ensures (draft, input) == NewTransactionDraft(tables, parseDay, old(store), a, old(input))
      ensures store == old(store) && nextId == old(nextId) && matched == old(matched)
    {
      var day := parseDay(a.dateText, Separator(a.dateText));
      if day.None? {
        return Err(ValueError(a.dateText));
      }
      var account: Outcome<Option<int>> := Ok(a.account);
      if a.account.None? {
        account := PromptForAccount();
      }
      if account.Err? {
        return Err(account.error);
      }
      ghost var r1 := input;
      var category: Outcome<Option<int>> := Ok(a.category);
      if a.category.None? {
        category := PromptForCategory();
      }
      assert (category, input) == if a.category.Some? then (Ok(a.category), r1) else CategoryReply(tables, r1);
      if category.Err? {
        return Err(category.error);
      }
      ghost var r2 := input;
      var transfer := PromptForAccount();
      if transfer.Err? {
        return Err(transfer.error);
      }
      ghost var r3 := input;
      var notes := a.notes;
      if !Given(notes) {
        var typed := Read();
        if typed.Err? {
          return Err(EOFError);
        }
        notes := Some(typed.value);
      }
      assert Given(a.notes) ==> input == r3;
      if account.value.None? {
        return Err(IntegrityError);
      }
      var t := Txn(account.value.value, None, a.description, a.amount, DateTime(day.value, Noon),
                   a.num, notes, transfer.value, false, category.value);
      draft := Ok((t, transfer.value));
    }

    /** `new_transaction`: the row, and the other leg of a transfer, saved
        after all prompts. */
    method NewTransaction(parseDay: DateParser, a: NewArgs) returns (status: Status)
      requires Valid()
      modifies this
      ensures Valid() && matched == old(matched)
      ensures var (draft, rest) := NewTransactionDraft(tables, parseDay, old(store), a, old(input));
        && input == rest
        && (draft.Err? ==> status == Failed(draft.error) && store == old(store) && nextId == old(nextId) && matched == old(matched))
        && (draft.Ok? ==>
              && status == Done
              && Books() == SaveEntered(old(Books()), draft.value.0, draft.value.1))
    {
      ghost var before := Books();
      var draft := AskNewTransaction(parseDay, a);
      if draft.Err? {
        return Failed(draft.error);
      }
      ghost var rest := input;
      assert Books() == before;
      var t := draft.value.0;
      var transfer := draft.value.1;
      var _ := Save(t);
      assert Books() == SaveNew(before, t);
      if transfer.Some? {
        ghost var saved := Books();
        var _ := Save(Mirror(t, transfer.value));
        assert Books() == SaveNew(saved, Mirror(t, transfer.value));
      }
      assert Books() == SaveEntered(before, t, transfer) && input == rest;
      status := Done;
    }

    // ---- new_from_search ----

    /** `prompt_for_string_change`. */
    method PromptForStringChange(t: Txn, field: TextField) returns (changed: Outcome<Txn>)
      modifies this
      ensures var (answer, rest) := ReadLine(old(input));
        && input == rest
        && (answer.Err? ==> changed == Err(EOFError))
        && (answer.Ok? ==> changed == Ok(ChangeField(t, field, answer.value)))
      ensures store == old(store) && nextId == old(nextId) && matched == old(matched)
    {
      var answer := Read();
      if answer.Err? {
        return Err(EOFError);
      }
      var u := t;
      if answer.value != "" {
        match field {
          case Description => u := u.(description := answer.value);
          case Notes => u := u.(notes := Some(answer.value));
          case Num => u := u.(num := Some(answer.value));
        }
      }
      changed := Ok(u);
    }

    /** The questions of a pass after the three text fields: whether to keep
        the account, then the rest of the review. */
    method Review(t: Txn) returns (step: EditStep)
      modifies this
      ensures (step, input) == ReviewAfterFields(tables, old(store), t, old(input))
      ensures store == old(store) && nextId == old(nextId) && matched == old(matched)
    {
      var acceptAccount := Read();
      if acceptAccount.Err? {
        return Stop(EOFError);
      }
      var u := t;
      if acceptAccount.value != "" && StartsWith(acceptAccount.value, 'n') {
        var account := PromptForAccount();
        if account.Err? {
          return Stop(account.error);
        }
        if account.value.Some? {
          u := u.(account := account.value.value);
        }
      }
      step := FinishReview(u);
    }

    /** The category question, the reconciled question and the last answer. */
    method FinishReview(t: Txn) returns (step: EditStep)
      modifies this
      ensures (step, input) == ReviewTail(t, old(input))
      ensures store == old(store) && nextId == old(nextId) && matched == old(matched)
    {
      if t.category.None? {
        return Stop(AttributeError);
      }
      var acceptCategory := Read();
      if acceptCategory.Err? {
        return Stop(EOFError);
      }
      if acceptCategory.value != "" && StartsWith(acceptCategory.value, 'n') {
        return Stop(TypeError);
      }
      var u := t;
      var reconciled := Read();
      if reconciled.Err? {
        return Stop(EOFError);
      }
      if reconciled.value != "" && StartsWith(reconciled.value, 'y') {
        u := u.(reconciled := true);
      }
      var accept := Read();
      if accept.Err? {
        return Stop(EOFError);
      }
      assert old(input) == [acceptCategory.value, reconciled.value, accept.value] + input;
      assert old(input)[3..] == input;
      if accept.value != "" && StartsWith(accept.value, 'q') {
        step := Quit;
      } else if accept.value == "" || StartsWith(accept.value, 'Y') || StartsWith(accept.value, 'y') {
        step := Accepted(u);
      } else {
        step := Again(u);
      }
    }

    /** One pass of the `while not handled` loop of `new_from_search`. */
    method EditPass(parseDay: DateParser, parseAmount: AmountParser, t: Txn) returns (step: EditStep)
      modifies this
      ensures (step, input) == EditRound(tables, parseDay, parseAmount, old(store), t, old(input))
      ensures store == old(store) && nextId == old(nextId) && matched == old(matched)
    {
      var u := t;
      var newDate := Read();
      if newDate.Err? {
        return Stop(EOFError);
      }
      if newDate.value != "" {
        var day := parseDay(newDate.value, '-');
        if day.None? {
          return Stop(ValueError(newDate.value));
        }
        u := u.(date := DateTime(day.value, Noon));
      }
      var newAmount := Read();
      if newAmount.Err? {
        return Stop(EOFError);
      }
      if newAmount.value != "" {
        var amount := parseAmount(newAmount.value);
        if amount.None? {
          return Again(u);
        }
        u := u.(amount := amount.value);
      }
      step := EditFields(u);
    }

    /** The three text answers of a pass, then the review. */
    method EditFields(t: Txn) returns (step: EditStep)
      modifies this
      ensures (step, input) == EditAfterAmount(tables, old(store), t, old(input))
      ensures store == old(store) && nextId == old(nextId) && matched == old(matched)
    {
      ghost var fields := input;
      var changed := PromptForStringChange(t, Description);
      if changed.Err? {
        assert fields == [];
        return Stop(EOFError);
      }
      var u1 := changed.value;
      assert fields == [fields[0]] + input && u1 == ChangeField(t, Description, fields[0]);
      changed := PromptForStringChange(u1, Notes);
      if changed.Err? {
        assert |fields| == 1;
        return Stop(EOFError);
      }
      var u2 := changed.value;
      assert fields == [fields[0], fields[1]] + input && u2 == ChangeField(u1, Notes, fields[1]);
      changed := PromptForStringChange(u2, Num);
      if changed.Err? {
        assert |fields| == 2;
        return Stop(EOFError);
      }
      assert fields == [fields[0], fields[1], fields[2]] + input && changed.value == ChangeField(u2, Num, fields[2]);
      assert fields[3..] == input;
      step := Review(changed.value);
    }

    /** `new_from_search`: a searched row copied, edited and saved, unless no
        row is picked or the operator quits. */
    method NewFromSearch(parseDay: DateParser, parseAmount: AmountParser, nextNumber: int -> string,
                         searchTxn: string -> seq<Txn>, today: int, query: string) returns (status: Status)
      requires Valid()
      modifies this
      ensures Valid() && matched == old(matched)
      ensures var (saved, rest) := Entry.NewFromSearch(tables, parseDay, parseAmount, nextNumber, searchTxn(query), today, old(store), old(input));
        && input == rest
        && (saved.Err? ==> status == Failed(saved.error) && store == old(store) && nextId == old(nextId) && matched == old(matched))
        && (saved.Ok? && saved.value.None? ==> status == Done && store == old(store) && nextId == old(nextId) && matched == old(matched))
        && (saved.Ok? && saved.value.Some? ==>
              status == Done && store == old(store)[old(nextId) := saved.value.value] && nextId == old(nextId) + 1)
    {
      var template := Search(searchTxn, query);
      if template.Err? {
        return Failed(template.error);
      }
      if template.value.None? {
        return Done;
      }
      var t := Drafted(template.value.value, today, nextNumber);
      ghost var drafted := t;
      ghost var afterSearch := input;
      var handled := false;
      var step: EditStep := Quit;
      while !handled
        invariant store == old(store) && nextId == old(nextId) && matched == old(matched) && Valid()
        invariant !handled ==>
          EditLoop(tables, parseDay, parseAmount, store, t, input) ==
          EditLoop(tables, parseDay, parseAmount, store, drafted, afterSearch)
        invariant handled ==>
          !step.Again? && (step, input) == EditLoop(tables, parseDay, parseAmount, store, drafted, afterSearch)
        decreases |input|, !handled
      {
        step := EditPass(parseDay, parseAmount, t);
        if step.Again? {
          t := step.t;
        } else {
          handled := true;
        }
      }
      match step {
        case Accepted(u) =>
          var _ := Save(u);
          status := Done;
        case Quit =>
          status := Done;
        case Stop(e) =>
          status := Failed(e);
      }
    }
  }
}
