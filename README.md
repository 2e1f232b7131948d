# Interactive ledger prompts — a Dafny model

This project models the interactive layer of a personal ledger, the module
`home_finance/interactive/prompt.py`. The operator imports a bank file and
reconciles it against the stored transactions (`load_transactions`). They can
also enter transactions by hand (`new_transaction`) or copy a searched one
(`new_from_search`). Account balances and recent history are shown along the
way (`current_account_balance`, `recent_transactions`).

What the model treats as what:

- **Input.** Every `input()` reads the next answer from a sequence of
  strings. When the sequence is empty, the read gives `EOFError`.
- **Store.** The database is a map from transaction id to row, plus the id
  the next save receives.
- **Exceptions.** Each exception the prompts leave uncaught ends the run. In
  the model it is an error outcome.

Modules:

- `ledger.dfy` (`Ledger`): the entities — categories, external accounts and
  transactions (amounts in thousandths) — and the books (store, next id, and
  the ids claimed in an import run).
- `text.dfy` (`Text`): how answers are read. This covers upper-casing for
  `none`/`no`, Python's `int()` on decimal text, and the substring filter of
  `name__contains`.
- `selection.dfy` (`Selection`): `prompt_by_name`, `search`,
  `prompt_for_category` and `prompt_for_account` as functions from answers
  to a pick. The prompt loops use the intended range check; the two loops
  with the check as written sit next to them, with proofs of where the two
  differ.
- `balance.dfy` (`Balance`): `current_account_balance` as a function, and the
  listing order of `recent_transactions`. Ordering is done by an insertion
  sort proved sorted and a permutation. `recent_transactions` itself is a
  method with a loop, proved against the running-balance function.
- `reconcile.dfy` (`Reconcile`): `load_transactions` as a function of the
  records and the answers. It covers match commands, the auto-confirm of a
  lone reconciled match, the no-match menu, and the whole run. It proves that
  no stored row is claimed twice in one run.
- `entry.dfy` (`Entry`): `new_transaction` with its transfer leg,
  `prompt_for_string_change`, and the editing loop of `new_from_search`.
- `session.dfy` (`Prompt`): the class `Session` holds the store, the next
  id, `matched` (`matched_pks`) and the unread answers. Every prompt is a
  method that reads one answer at a time and updates the fields in place.
  Each method is proved to end in exactly the state the functions above
  describe.

Where the code's behaviour may surprise, the model follows the code:

- **Empty balance.** The aggregate of an account without top-level rows is
  NULL, not zero. Showing it raises TypeError. This happens in three places:
  the starting balance of `load_transactions`, the balance shown after an
  account is picked, and the first line of `recent_transactions`.
- **Bad number after `r` or `i`.** In the match prompt of
  `load_transactions`, `r` or `i` followed by something that is not a number
  raises ValueError. It does not prompt again.
- **Running balance.** A history row is shown beside the current balance less
  the amounts of all rows listed above it. The current balance counts only
  top-level rows, but the listing includes split children. Without children
  in the listing, the shown balance is the balance just after that row, not
  just before it. Listed children are taken off as well, so a split header
  shows a balance off by its own amount (`Balance.SplitChildrenShiftShownBalance`).

## Model

| member | source | states |
|---|---|---|
| Text.NoneAnswerSpellings | home_finance/interactive/prompt.py:174 | an answer is the `none` escape exactly when it is n-o-n-e in any mix of cases |
| Text.ParseShowInt | home_finance/interactive/prompt.py:185 | `int()` of the decimal text of a number gives that number back |
| Text.ShowIntIsNotNone | home_finance/interactive/prompt.py:181 | a typed number is never taken for the `none` escape |
| Text.Matching | home_finance/interactive/prompt.py:177 | the filtered list holds exactly the positions of the names containing the query, in table order |
| Selection.ReadLine | home_finance/interactive/prompt.py:173 | one `input()` call takes exactly the next answer; it gives EOFError, and reads nothing more, exactly when no answers are left |
| Selection.Pick | home_finance/interactive/prompt.py:181-192 | intended range check: nothing is selected iff the answer is `none`; an item is selected iff the answer is an integer in 0..count-1, and it is that item |
| Selection.PickAsWritten | home_finance/interactive/prompt.py:181-189 | the answer check as written: IndexError exactly when the answer is the integer equal to the list's length; every other answer is classified as under the intended check |
| Selection.AsWrittenFailsAtLength | home_finance/interactive/prompt.py:186-189 | with the check as written, typing the length of the list ends the run with IndexError, for every list, the empty one included; the intended check asks again |
| Selection.AsWrittenAgreesElsewhere | home_finance/interactive/prompt.py:216-219 | on every other answer, the check as written and the intended check agree |
| Selection.SearchReply | home_finance/interactive/prompt.py:203-223 | `search` under the intended check: a pick is always a position of the listed rows, and the only error is EOFError when the answers run out |
| Selection.ByNameReply | home_finance/interactive/prompt.py:166-193 | `prompt_by_name` under the intended check gives a position in the table whose name contains the query typed just before the pick |
| Selection.NoneEscapes | home_finance/interactive/prompt.py:174-175 | `none` in any case selects nothing at once, in both prompts |
| Selection.NonIntegerAsksAgain | home_finance/interactive/prompt.py:221-222 | in `search`, an answer that is not an integer asks again |
| Selection.ByNameRetry | home_finance/interactive/prompt.py:172-192 | in `prompt_by_name`, under the intended check, a query followed by an answer that is not an integer or not a position of its match list starts over with a new query |
| Selection.TypedPosition | home_finance/interactive/prompt.py:215-220 | under the intended check, typing a number selects that row iff it is a position of the list, and any other number asks again |
| Selection.TypedNameAndPosition | home_finance/interactive/prompt.py:177-190 | a query followed by a position in its match list selects that table entry |
| Selection.SearchReplyAsWritten | home_finance/interactive/prompt.py:203-223 | `search` with the check as written: a pick is a position of the list; the errors are EOFError and IndexError at the length |
| Selection.SearchAsWrittenFailsAtLength | home_finance/interactive/prompt.py:216-219 | as written, typing the length of the list ends `search` with IndexError, where the intended check asks again |
| Selection.SearchAsWrittenAgrees | home_finance/interactive/prompt.py:203-223 | unless it ends in that IndexError, `search` as written reads the same answers and picks the same row as under the intended check |
| Selection.ByNameReplyAsWritten | home_finance/interactive/prompt.py:166-193 | `prompt_by_name` with the check as written: a pick is a position in the table; the errors are EOFError and IndexError |
| Selection.ByNameAsWrittenFailsAtLength | home_finance/interactive/prompt.py:186-189 | as written, a query followed by the length of its match list ends `prompt_by_name` with IndexError, where the intended check asks again |
| Selection.ByNameAsWrittenAgrees | home_finance/interactive/prompt.py:166-193 | unless it ends in an IndexError, `prompt_by_name` as written reads the same answers and picks the same entry as under the intended check |
| Selection.CategoryReply | home_finance/interactive/prompt.py:149-153 | `prompt_for_category` gives the id of a listed category, or none |
| Selection.AccountReply | home_finance/interactive/prompt.py:156-163 | `prompt_for_account` gives the id of a listed account that has a balance to show, or none; it raises TypeError exactly when the picked account has no balance |
| Selection.NoneSkipsLookup | home_finance/interactive/prompt.py:173-175 | `none` at a category or account prompt gives no pick and reads nothing more |
| Balance.CurrentBalance | home_finance/interactive/prompt.py:289-297 | `current_account_balance` is none exactly when the account has no top-level row, and otherwise the sum of the amounts of its top-level rows; split children are not counted |
| Balance.SumWithout | home_finance/interactive/prompt.py:293 | the sum over a set of rows is any one row's amount plus the sum over the others |
| Balance.SumOnlyReadsAmounts | home_finance/interactive/prompt.py:293 | the sum depends only on the amounts of the rows summed |
| Balance.BalanceAfterSave | home_finance/interactive/prompt.py:293 | saving a new top-level row moves its account's balance by its amount; saving a split child or a row of another account moves nothing |
| Balance.BalanceIgnoresReconciled | home_finance/interactive/prompt.py:293 | marking a row reconciled changes no balance |
| Balance.NoBalanceNoRows | home_finance/interactive/prompt.py:293 | when split children share their header's account, an account has no balance exactly when it has no rows |
| Balance.StrBeforeTransitive | home_finance/interactive/prompt.py:303 | the order on `num` text is transitive |
| Balance.StrBeforeTotal | home_finance/interactive/prompt.py:303 | the order on `num` text is total |
| Balance.StrBeforeIrreflexive | home_finance/interactive/prompt.py:303 | the order on `num` text is irreflexive |
| Balance.ListedBeforeIrreflexive | home_finance/interactive/prompt.py:303 | no row is listed before itself |
| Balance.ListedBeforeTransitive | home_finance/interactive/prompt.py:303 | the date, `num`, id listing order is transitive |
| Balance.ListedBeforeTotal | home_finance/interactive/prompt.py:303 | any two distinct rows are listed one before the other |
| Balance.Insert | home_finance/interactive/prompt.py:303 | inserting a row into a listing keeps it sorted and adds exactly that row |
| Balance.OrderIds | home_finance/interactive/prompt.py:303 | the listing is a sorted permutation of the account's rows |
| Balance.RecentIds | home_finance/interactive/prompt.py:303 | the listed ids are at most `count` stored rows, each of them on the account |
| Balance.RecentAreNewest | home_finance/interactive/prompt.py:303 | history shows min(count, rows) of the account's rows, split children included, newest first; every row left off comes after all shown |
| Balance.RecentTransactions | home_finance/interactive/prompt.py:300-309 | row k shows the current balance less the amounts of listed rows 0..k-1, split children included; with no balance, any row ends the run with TypeError |
| Balance.ShowRows | home_finance/interactive/prompt.py:304-309 | each listed row is shown beside the starting balance less the amounts of the rows above it |
| Balance.ShownBalancesStep | home_finance/interactive/prompt.py:309 | the running balance after k rows is the one after k-1 rows less the amount of row k; before any row it is the current balance |
| Balance.SplitChildrenShiftShownBalance | home_finance/interactive/prompt.py:302-309 | with a header of -61.5 split into -61.0 and -0.5, the children are listed first and the header is shown beside 0, not beside -61.5, the balance after it |
| Reconcile.ParseMatchCommand | home_finance/interactive/prompt.py:53-57 | `s...` accepts exactly when the answer starts with `s`; `r<N>` and `i<N>` give N exactly when `int()` reads the text after the letter, and ValueError otherwise; any other answer is unknown |
| Reconcile.CommandOfTypedIndex | home_finance/interactive/prompt.py:56-57 | `r<N>` and `i<N>` read back N |
| Reconcile.CommandOfTypedLetter | home_finance/interactive/prompt.py:56-57 | a typed `r` or `i` followed by the decimal text of N is a reconcile or ignore command for N |
| Reconcile.StepOnMatches | home_finance/interactive/prompt.py:53-68 | a chosen candidate is always a position of the match list |
| Reconcile.MatchRound | home_finance/interactive/prompt.py:49-68 | the match prompt reads answers until one accepts, chooses a listed candidate or raises; at least one answer is read |
| Reconcile.Apply | home_finance/interactive/prompt.py:61-68 | a decision adds exactly its claimed id to the matched set and never removes a stored row |
| Reconcile.ApplyKeepsValid | home_finance/interactive/prompt.py:62-63 | a decision keeps the books valid, changes a row at most by setting `reconciled`, and never clears it |
| Reconcile.Completed | home_finance/interactive/prompt.py:76-85 | the `n` answer sets the chosen category and transfer account; `reconciled` is false iff the cleared answer upper-cases to `NO`; description and notes take the typed text only when it is longer than one character; account, amount, date, number and parent stay |
| Reconcile.CategoryAndTransfer | home_finance/interactive/prompt.py:140-146 | under the intended check, the category prompt and then the transfer-account prompt; on success both picks and the answers left after them, otherwise EOFError or TypeError |
| Reconcile.FromScratch | home_finance/interactive/prompt.py:75-88 | the `n` path creates the candidate completed with the category and transfer account just picked and the next three answers, or, under the intended check, ends with EOFError or TypeError |
| Reconcile.LastAnswers | home_finance/interactive/prompt.py:78-86 | with three answers left, the candidate is completed from them and created; with fewer, the run ends with EOFError |
| Reconcile.TemplateAnswer | home_finance/interactive/prompt.py:91-102 | after `s`, a short query or no pick asks again; otherwise the picked template is created or the search fails with its error |
| Reconcile.NoMatchRound | home_finance/interactive/prompt.py:70-105 | with no match, the operator creates, copies a template, skips, or the run ends; nothing is ever claimed from the store |
| Reconcile.HandleRecord | home_finance/interactive/prompt.py:37-68 | a record only claims or reconciles stored rows |
| Reconcile.Batch | home_finance/interactive/prompt.py:36-105 | the records are handled in order, and answers are only consumed |
| Reconcile.HandledClaimIsNew | home_finance/interactive/prompt.py:37 | given that candidates exclude the ids claimed so far, a record claims only an unclaimed id |
| Reconcile.ClaimsAreDistinct | home_finance/interactive/prompt.py:35-105 | no stored row is claimed twice in a run: the claims are distinct and new, and the matched set ends as exactly the claims |
| Reconcile.LoadTransactions | home_finance/interactive/prompt.py:33-35 | an import account with no balance ends the run with TypeError before any record is handled |
| Reconcile.LoadClaimsOnce | home_finance/interactive/prompt.py:35 | the run's matched set holds exactly as many ids as claims were made |
| Reconcile.AutoConfirm | home_finance/interactive/prompt.py:45-47 | a lone reconciled candidate is claimed without reading an answer, and the store is unchanged |
| Reconcile.ReconcileTyped | home_finance/interactive/prompt.py:61-68 | `r<N>` marks candidate N reconciled and claims it; on a reconciled row the store is unchanged |
| Reconcile.IgnoreTyped | home_finance/interactive/prompt.py:65-68 | `i<N>` claims candidate N and changes no row |
| Reconcile.OutOfRangeAsksAgain | home_finance/interactive/prompt.py:58-59 | an index outside the list asks about the same record again |
| Reconcile.AcceptLeavesBooks | home_finance/interactive/prompt.py:53-55 | an answer starting with `s` finishes the record with no change |
| Reconcile.UnknownAsksAgain | home_finance/interactive/prompt.py:50-56 | an answer starting with none of `s`, `r`, `i` asks again |
| Reconcile.BadNumberRaises | home_finance/interactive/prompt.py:57 | `r` or `i` followed by a non-integer ends the run with ValueError |
| Reconcile.ShortQueryAsksAgain | home_finance/interactive/prompt.py:92-102 | a template query of at most two characters asks again |
| Reconcile.TemplatePicked | home_finance/interactive/prompt.py:93-99 | a picked template is saved under the import account; no pick asks again |
| Reconcile.OtherKeySkips | home_finance/interactive/prompt.py:103-105 | any other key skips the record with no save and no claim |
| Reconcile.NewSavedOnce | home_finance/interactive/prompt.py:86-88 | the `n` path saves one row under an id not in the store, which joins the matched set; the row keeps the candidate's amount, date and account |
| Entry.Separator | home_finance/interactive/prompt.py:113 | the date separator is `-` exactly when the typed date contains one, otherwise `/` |
| Entry.Mirror | home_finance/interactive/prompt.py:130-132 | the other leg of a transfer is on the transfer account, points back at the first account, carries the negated amount, and keeps the date, description, notes and category |
| Entry.MirrorTwice | home_finance/interactive/prompt.py:130-132 | the other leg of the other leg has the first leg's accounts, amount, date, description, notes and category |
| Entry.NewTransactionDraft | home_finance/interactive/prompt.py:113-132 | a bad date raises ValueError before any prompt; the row keeps the given amount, description, number, account, category and notes, is dated 12:00, and records the transfer account |
| Entry.SaveEntered | home_finance/interactive/prompt.py:133-135 | the row is saved under the next id and, when a transfer account was picked, its mirror under the id after; the claimed ids and every other stored row stay as they were |
| Entry.SaveEnteredBalances | home_finance/interactive/prompt.py:128-135 | after saving, the account gains the amount, the transfer account loses it, and other balances and stored rows are unchanged |
| Entry.AllGivenAsksForTransferOnly | home_finance/interactive/prompt.py:117-127 | with account, category and notes given, only the transfer account is asked for |
| Entry.NotesAskedWhenMissing | home_finance/interactive/prompt.py:125-127 | without notes, the next answer becomes the notes, even an empty one |
| Entry.NoAccountCannotSave | home_finance/interactive/prompt.py:118-133 | skipping the account prompt ends in IntegrityError, with nothing saved |
| Entry.ChangeField | home_finance/interactive/prompt.py:282-286 | a non-empty answer becomes the field's value, an empty one keeps it, and no other field changes |
| Entry.ChangeFieldIdempotent | home_finance/interactive/prompt.py:284-286 | the same answer twice is the same as once |
| Entry.ChangeFieldsCommute | home_finance/interactive/prompt.py:252-254 | changes to different fields do not interfere |
| Entry.ReviewTail | home_finance/interactive/prompt.py:260-279 | from the category question on, the category never changes, `reconciled` is never cleared, and a row accepted for saving has a category |
| Entry.ReviewAfterFields | home_finance/interactive/prompt.py:255-259 | from the account question on, parent, transfer account and category are kept, `reconciled` is never cleared, and an accepted row has a category |
| Entry.EditAfterAmount | home_finance/interactive/prompt.py:252-259 | the text answers keep parent, transfer account and category |
| Entry.EditRound | home_finance/interactive/prompt.py:241-279 | each pass reads at least one answer; parent, transfer account and category are kept; a new date is at 12:00; `reconciled` never goes back to false; an accepted row has a category |
| Entry.EditLoop | home_finance/interactive/prompt.py:241 | the passes never end asking again: they end in a quit, an error, or a row to save that evolved from the draft and has a category |
| Entry.NewFromSearch | home_finance/interactive/prompt.py:226-279 | a saved row evolved from the draft of one of the listed templates, so it keeps that template's category, and it has a category and no parent |
| Entry.EnterThroughAccepts | home_finance/interactive/prompt.py:276-279 | entering through every prompt saves the row as shown |
| Entry.Drafted | home_finance/interactive/prompt.py:230-240 | the draft has the template's account, amount, description, notes and category, is dated today at 12:00, is not reconciled, has no parent and no transfer account, and takes the account's next number only when the template has a number, else an empty number |
| Entry.PickedTemplateSavedAsDrafted | home_finance/interactive/prompt.py:230-240 | the saved copy has the template's account, amount, description, notes and category, dated today at 12:00 |
| Entry.NoCategoryNeverSaved | home_finance/interactive/prompt.py:260 | a template without a category can never be saved |
| Entry.BadAmountStartsOver | home_finance/interactive/prompt.py:246-251 | an amount that does not parse starts the prompts over and keeps the new date |
| Entry.QuitSavesNothing | home_finance/interactive/prompt.py:274-275 | `q` saves nothing |
| Prompt.Session.constructor | home_finance/interactive/prompt.py:35 | a session starts over the given store with an empty matched set |
| Prompt.Session.Read | home_finance/interactive/prompt.py:173 | `input()` takes the next answer, or gives EOFError when none are left |
| Prompt.Session.Save | home_finance/interactive/prompt.py:86 | a new row gets the next id; nothing else in the store changes |
| Prompt.Session.PromptByName | home_finance/interactive/prompt.py:166-193 | the loop ends with the pick and the unread answers given by ByNameReply |
| Prompt.Session.PromptForCategory | home_finance/interactive/prompt.py:149-153 | the method ends as CategoryReply says |
| Prompt.Session.PromptForAccount | home_finance/interactive/prompt.py:156-163 | the method ends as AccountReply says, TypeError included |
| Prompt.Session.Search | home_finance/interactive/prompt.py:196-223 | the loop returns the row at the position SearchReply picks |
| Prompt.Session.AskAboutMatches | home_finance/interactive/prompt.py:49-68 | the match loop ends as MatchRound says |
| Prompt.Session.PromptForCategoryOrTransferAccount | home_finance/interactive/prompt.py:140-146 | the two prompts end as CategoryAndTransfer says and change neither the store nor the next id |
| Prompt.Session.CompleteCandidate | home_finance/interactive/prompt.py:75-85 | the prompts of the `n` path end as FromScratch says |
| Prompt.Session.ReadLastAnswers | home_finance/interactive/prompt.py:78-85 | the field-by-field updates build exactly the row LastAnswers creates |
| Prompt.Session.AskWithoutMatches | home_finance/interactive/prompt.py:70-105 | the no-match loop ends as NoMatchRound says |
| Prompt.Session.HandleRecord | home_finance/interactive/prompt.py:37-105 | one record is decided as Reconcile.HandleRecord says, and the store is untouched until the decision is applied |
| Prompt.Session.Carry | home_finance/interactive/prompt.py:61-68 | applying a decision in place leaves the fields equal to Apply of the old books |
| Prompt.Session.LoadTransactions | home_finance/interactive/prompt.py:14-105 | the run leaves store, next id, matched set and unread answers exactly as Reconcile.LoadTransactions says |
| Prompt.Session.AskNewTransaction | home_finance/interactive/prompt.py:113-127 | the prompts of `new_transaction` end as NewTransactionDraft says |
| Prompt.Session.NewTransaction | home_finance/interactive/prompt.py:108-137 | the row and then its other leg are saved, exactly as SaveEntered says; on an error nothing is saved |
| Prompt.Session.PromptForStringChange | home_finance/interactive/prompt.py:282-286 | the row after the answer is ChangeField of it |
| Prompt.Session.Review | home_finance/interactive/prompt.py:255-259 | the account question ends as ReviewAfterFields says |
| Prompt.Session.FinishReview | home_finance/interactive/prompt.py:260-279 | the rest of a pass ends as ReviewTail says |
| Prompt.Session.EditPass | home_finance/interactive/prompt.py:241-279 | one pass ends as EditRound says |
| Prompt.Session.EditFields | home_finance/interactive/prompt.py:252-279 | the three text answers and the review end as EditAfterAmount says |
| Prompt.Session.NewFromSearch | home_finance/interactive/prompt.py:226-279 | the store gains exactly the row NewFromSearch gives, or nothing |

## Left out

- Terminal output and styling: `print`, `stylize`, `moneyfmt` and `date_style` are not modelled. The one observable effect of `amount_style` and `money_style` is modelled: each raises TypeError on a missing balance.
- The balance line printed after each save is not modelled (prompt.py lines 89, 100, 137 and 278). For rows saved by `new_transaction` it cannot fail: `Entry.SaveEnteredBalances` proves the account then has a balance. The same holds for `new_from_search`, because the saved row has no parent.
- Database access: `save`, `filter`, `aggregate(Sum)` and `order_by` become operations on the id-keyed map.
- Ordering of a missing `num`: it sorts lowest, as NULL does in SQLite. Other databases may order it differently.
- The database's text collation is not modelled. `num` text is ordered by code point.
- Reconcile.Helpers: `findTransactions`, `search_txn` and `transaction_from_template` are not part of this model. They are parameters.
- `next_number` is not part of this model. It is the `nextNumber` parameter of `Entry.Drafted` and `Entry.NewFromSearch`.
- Reconcile.ClaimsAreDistinct: "never claimed twice" rests on `findTransactions` leaving out the ids it is given (stated as `FinderExcludes`). The code of that helper is not part of this model.
- Selection.SearchReply, Selection.ByNameReply, Selection.TypedPosition, Prompt.Session.Search, Prompt.Session.PromptByName: use the intended range check, and so does every member that calls `SearchReply` or `ByNameReply`, directly or through another member: `CategoryReply`, `AccountReply`, `Reconcile.CategoryAndTransfer`, `Reconcile.FromScratch`, `Reconcile.TemplateAnswer`, `Reconcile.NoMatchRound`, `Reconcile.HandleRecord`, `Reconcile.Batch`, `Reconcile.LoadTransactions`, `Entry.NewTransactionDraft`, `Entry.ReviewAfterFields`, `Entry.EditAfterAmount`, `Entry.EditRound`, `Entry.EditLoop`, `Entry.NewFromSearch`, and the session methods that call `PromptByName` or `Search`. Under them, the errors listed do not include the IndexError the code raises. As written, typing the length of the list raises IndexError; `SearchReplyAsWritten` and `ByNameReplyAsWritten` model that, and the `AsWrittenAgrees` lemmas prove it is the only difference.
- Reading the import file (`open`, `json.load`): the records are given as a sequence.
- Floating point: amounts are integers in thousandths, so sums and `-1.0*amount` are exact. `float()` on a typed amount is a parameter.
- Date parsing: `strptime` and `datetime.today()` are parameters. A date is a day number and a minute of the day. Calendar validity and the fixed +08:00 offset are not modelled.
- Text.ParseInt: accepts only an optional sign followed by ASCII digits. Python's `int()` also accepts surrounding whitespace, underscores between digits and non-ASCII digits.
- Text.Upper: maps only ASCII letters. No non-ASCII answer can upper-case to `NONE` or `NO` in four or two characters, so the escape tests are unaffected.
- Text.Contains: case-sensitive substring, as `contains` is on PostgreSQL and MySQL with a binary collation. SQLite's `LIKE` ignores ASCII case. No one database is modelled: the ordering of a missing `num` follows SQLite and `contains` follows the case-sensitive databases, a deliberate mix, because the configured database is not part of this model.
- Balance.RecentTransactions: `count` is a natural number. A negative count makes Django refuse the slice.
- Balance.RecentTransactions: the default `count=10` is not modelled; every caller passes the count.
- Rows are values, not model instances. In `load_transactions`, the candidate row is updated in the store by id, so aliasing between fetched instances is not modelled.
- Category nesting (a parent from the name up to the last colon) is not resolved: the prompts only pick categories by name.
- `home_finance/admin.py` and the three model files hold no logic. The transaction model file lacks `category`, `num` and `transfer_account`, so the row's field set follows how `prompt.py` uses it.

## Findings

| source | as written | input that shows it | evidently intended | confidence | as-written member | corrected member |
|---|---|---|---|---|---|---|
| home_finance/interactive/prompt.py:186 | `select_index > len(possible_items)` lets an index equal to the length through, and indexing the query set there raises IndexError | at `prompt_by_name`, typing the length of the match list, e.g. `0` when nothing matched | reject indices ≥ len and ask again | high; not executed | Selection.ByNameAsWrittenFailsAtLength | Selection.Pick |
| home_finance/interactive/prompt.py:216 | the same inclusive bound in `search` | at `search`, typing the number of rows listed, e.g. `0` when the search found nothing | reject indices ≥ len and ask again | high; not executed | Selection.SearchAsWrittenFailsAtLength | Selection.Pick |
