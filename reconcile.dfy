/** The batch reconciliation of `load_transactions`: what each operator answer
    does to one imported record, and how the records of a file are worked
    through in order while `matched` collects the ids claimed in the run. */
module Reconcile {
  import opened Ledger
  import opened Text
  import opened Selection
  import opened Balance

  lemma SuffixOfTail(rest: seq<string>, tokens: seq<string>, k: nat)
    requires k <= |tokens| && IsSuffix(rest, tokens[k..])
    ensures IsSuffix(rest, tokens) && (k > 0 ==> |rest| < |tokens|)
  {
    assert tokens[k..][|tokens[k..]| - |rest|..] == tokens[|tokens| - |rest|..];
  }

  // ---- a record with candidate matches ----

  /** An answer to the match prompt, read by its first character. */
  datatype MatchCommand =
    | Accept                    // `s...`: the record is fine as shown
    | ReconcileAt(index: int)   // `r<N>`
    | IgnoreAt(index: int)      // `i<N>`
    | BadNumber(text: string)   // `r` or `i` followed by something int() refuses
    | Unknown                   // anything else

  function ParseMatchCommand(token: string): (c: MatchCommand)
    ensures c.Accept? <==> StartsWith(token, 's')
    ensures c.Unknown? <==> !StartsWith(token, 's') && !StartsWith(token, 'r') && !StartsWith(token, 'i')
    ensures c.ReconcileAt? <==> StartsWith(token, 'r') && ParseInt(token[1..]).Some?
    ensures c.IgnoreAt? <==> StartsWith(token, 'i') && ParseInt(token[1..]).Some?
    ensures c.BadNumber? <==> (StartsWith(token, 'r') || StartsWith(token, 'i')) && ParseInt(token[1..]).None?
    ensures (c.ReconcileAt? || c.IgnoreAt?) ==> c.index == ParseInt(token[1..]).value
    ensures c.BadNumber? ==> c.text == token[1..]
  {
    if StartsWith(token, 's') then Accept
    else if StartsWith(token, 'r') || StartsWith(token, 'i') then
      match ParseInt(token[1..])
      case None => BadNumber(token[1..])
      case Some(n) => if token[0] == 'r' then ReconcileAt(n) else IgnoreAt(n)
    else Unknown
  }

  /** `r<N>` and `i<N>` typed with the decimal text of N read back as N. */
  lemma CommandOfTypedIndex(n: int)
    ensures ParseMatchCommand("r" + ShowInt(n)) == ReconcileAt(n)
    ensures ParseMatchCommand("i" + ShowInt(n)) == IgnoreAt(n)
  {
    CommandOfTypedLetter('r', n);
    CommandOfTypedLetter('i', n);
  }

  lemma CommandOfTypedLetter(c: char, n: int)
    requires c == 'r' || c == 'i'
    ensures ParseMatchCommand([c] + ShowInt(n)) == if c == 'r' then ReconcileAt(n) else IgnoreAt(n)
  {
    var typed := [c] + ShowInt(n);
    ParseShowInt(n);
    assert typed[0] == c && typed[1..] == ShowInt(n);
  }

  /** What one answer does to a record with `count` candidates. */
  datatype MatchStep = Reprompt | AcceptShown | Choose(index: nat, reconcile: bool) | Raise(error: Error)

  function StepOnMatches(count: nat, token: string): (s: MatchStep)
    ensures s.Choose? ==> s.index < count
  {
    match ParseMatchCommand(token)
    case Accept => AcceptShown
    case ReconcileAt(n) => if n < 0 || n >= count then Reprompt else Choose(n, true)
    case IgnoreAt(n) => if n < 0 || n >= count then Reprompt else Choose(n, false)
    case BadNumber(t) => Raise(ValueError(t))
    case Unknown => Reprompt
  }

  /** The inner `while not handled` loop: answers are read until one is not
      a re-prompt. */
  function MatchRound(count: nat, tokens: seq<string>): (r: (MatchStep, seq<string>))
    ensures !r.0.Reprompt?
    ensures r.0.Choose? ==> r.0.index < count
    ensures IsSuffix(r.1, tokens) && (tokens != [] ==> |r.1| < |tokens|)
    decreases |tokens|
  {
    if tokens == [] then (Raise(EOFError), [])
    else
      var step := StepOnMatches(count, tokens[0]);
      if step.Reprompt? then
        var r := MatchRound(count, tokens[1..]);
        SuffixOfTail(r.1, tokens, 1);
        r
      else (step, tokens[1..])
  }

  // ---- what handling a record does to the books ----

  /** The effect of one record on the books. */
  datatype Decision =
    | Leave                     // nothing saved, nothing claimed
    | Claim(id: int)            // a stored row is claimed as it is
    | MarkReconciled(id: int)   // a stored row is marked reconciled and claimed
    | Create(txn: Txn)          // a new row is saved and its new id claimed
    | Abort(error: Error)       // the run ends here

  function FromMatchStep(possibles: seq<int>, step: MatchStep): Decision
    requires step.Choose? ==> step.index < |possibles|
  {
    match step
    case Reprompt => Leave
    case AcceptShown => Leave
    case Choose(i, reconcile) => if reconcile then MarkReconciled(possibles[i]) else Claim(possibles[i])
    case Raise(e) => Abort(e)
  }

  function Elems(s: seq<int>): set<int> {
    set id | id in s
  }

  predicate Distinct(s: seq<int>) {
    forall i, j :: 0 <= i < j < |s| ==> s[i] != s[j]
  }

  /** The ids a decision adds to `matched`. */
  function ClaimOf(b: Books, d: Decision): seq<int> {
    match d
    case Claim(id) => [id]
    case MarkReconciled(id) => [id]
    case Create(_) => [b.nextId]
    case Leave => []
    case Abort(_) => []
  }

  /** A decision applied to the books: at most one id joins `matched`, rows
      are only added, and a stored row changes at most by becoming
      reconciled. */
  function Apply(b: Books, d: Decision): (r: Books)
    requires d.MarkReconciled? ==> d.id in b.store
    ensures r.matched == b.matched + Elems(ClaimOf(b, d))
    ensures b.store.Keys <= r.store.Keys && b.nextId <= r.nextId
  {
    match d
    case Leave => b
    case Abort(_) => b
    case Claim(id) => b.(matched := b.matched + {id})
    case MarkReconciled(id) =>
      b.(store := b.store[id := b.store[id].(reconciled := true)], matched := b.matched + {id})
    case Create(t) => SaveNew(b, t).(matched := b.matched + {b.nextId})
  }

  /** On valid books a decision keeps them valid, changes a stored row at
      most by marking it reconciled, and never clears a reconciled flag. */
  lemma ApplyKeepsValid(b: Books, d: Decision)
    requires BooksValid(b)
    requires (d.Claim? || d.MarkReconciled?) ==> d.id in b.store
    ensures BooksValid(Apply(b, d))
    ensures forall id :: id in b.store ==>
      Apply(b, d).store[id] == b.store[id] || Apply(b, d).store[id] == b.store[id].(reconciled := true)
    ensures forall id :: id in b.store && b.store[id].reconciled ==> Apply(b, d).store[id].reconciled
  {
    assert b.nextId !in b.store;
  }

  // ---- a record without candidate matches ----

  /** The collaborators `load_transactions` calls that are not part of this
      model: `findTransactions` (the candidate built from a record and the
      stored rows it may match, given the ids claimed so far), `search_txn`
      (the stored rows a query finds) and `transaction_from_template` (a new
      row built from a picked row and the record). */
  datatype Helpers<-R> = Helpers(
    find: (Store, set<int>, R) -> Found,
    searchTxn: string -> seq<Txn>,
    fromTemplate: (Txn, R) -> Txn)

  datatype Found = Found(candidate: Txn, possibles: seq<int>)

  /** Every candidate match is a stored row. */
  predicate FoundIn(f: Found, store: Store) {
    forall k :: 0 <= k < |f.possibles| ==> f.possibles[k] in store
  }

  /** No candidate match was claimed earlier in the run. */
  predicate FoundAvoids(f: Found, matched: set<int>) {
    forall k :: 0 <= k < |f.possibles| ==> f.possibles[k] !in matched
  }

  ghost predicate FinderSound<R(!new)>(find: (Store, set<int>, R) -> Found) {
    forall st, m, r :: FoundIn(find(st, m, r), st)
  }

  /** The exclusion `findTransactions` is given `matched_pks` for. */
  ghost predicate FinderExcludes<R(!new)>(find: (Store, set<int>, R) -> Found) {
    forall st, m, r :: FoundAvoids(find(st, m, r), m)
  }

  /** The candidate as the `n` answer completes it: the chosen category and
      transfer account, reconciled unless the answer is `no` in some case, and
      the typed description and notes when longer than one character. The
      amount, date, account, number and parent of the record stay. */
  function Completed(c: Txn, category: Option<int>, transfer: Option<int>, cleared: string, description: string, notes: string): (t: Txn)
    ensures t.account == c.account && t.amount == c.amount && t.date == c.date
    ensures t.num == c.num && t.parent == c.parent
    ensures !t.reconciled <==> IsNoAnswer(cleared)
    ensures t.category == category && t.transferAccount == transfer
    ensures t.description == (if |description| > 1 then description else c.description)
    ensures t.notes == (if |notes| > 1 then Some(notes) else c.notes)
  {
    c.(category := category,
       transferAccount := transfer,
       reconciled := !IsNoAnswer(cleared),
       description := if |description| > 1 then description else c.description,
       notes := if |notes| > 1 then Some(notes) else c.notes)
  }

  /** The two prompts that open the `n` answer: a category, then a transfer
      account. */
  function CategoryAndTransfer(tables: Tables, store: Store, tokens: seq<string>): (r: (Outcome<(Option<int>, Option<int>)>, seq<string>))
    ensures IsSuffix(r.1, tokens)
    ensures r.0.Err? ==> r.0.error in {EOFError, TypeError}
    ensures var (category, r1) := CategoryReply(tables, tokens);
      var (transfer, r2) := AccountReply(tables, store, r1);
      r.0.Ok? ==> category.Ok? && transfer.Ok? && r.0.value == (category.value, transfer.value) && r.1 == r2
  {
    var (category, r1) := CategoryReply(tables, tokens);
    if category.Err? then (Err(category.error), r1)
    else
      var (transfer, r2) := AccountReply(tables, store, r1);
      SuffixOfTail(r2, tokens, |tokens| - |r1|);
      if transfer.Err? then (Err(transfer.error), r2)
      else (Ok((category.value, transfer.value)), r2)
  }

  /** The `n` answer: a category prompt, a transfer-account prompt, then the
      reconciled flag, description and notes, and the candidate is saved. */
  function FromScratch(tables: Tables, store: Store, candidate: Txn, tokens: seq<string>): (r: (Decision, seq<string>))
    ensures IsSuffix(r.1, tokens)
    ensures r.0.Create? || r.0.Abort?
    ensures r.0.Abort? ==> r.0.error in {EOFError, TypeError}
    ensures var p := CategoryAndTransfer(tables, store, tokens);
      r.0.Create? ==>
        && p.0.Ok? && |p.1| >= 3 && r.1 == p.1[3..]
        && r.0.txn == Completed(candidate, p.0.value.0, p.0.value.1, p.1[0], p.1[1], p.1[2])
  {
    var p := CategoryAndTransfer(tables, store, tokens);
    if p.0.Err? then (Abort(p.0.error), p.1)
    else
      var r := LastAnswers(candidate, p.0.value.0, p.0.value.1, p.1);
      SuffixOfTail(r.1, tokens, |tokens| - |p.1|);
      r
  }

  /** The cleared, description and notes answers that end the `n` path. */
  function LastAnswers(candidate: Txn, category: Option<int>, transfer: Option<int>, tokens: seq<string>): (r: (Decision, seq<string>))
    ensures IsSuffix(r.1, tokens)
    ensures r.0.Create? <==> |tokens| >= 3
    ensures r.0.Create? ==> r.0.txn == Completed(candidate, category, transfer, tokens[0], tokens[1], tokens[2]) && r.1 == tokens[3..]
    ensures r.0.Abort? ==> r.0.error == EOFError && r.1 == []
  {
    if |tokens| < 3 then (Abort(EOFError), [])
    else (Create(Completed(candidate, category, transfer, tokens[0], tokens[1], tokens[2])), tokens[3..])
  }

  /** The `s` answer, from the query on: a query of more than two characters
      searches for a template; a picked template is saved under the import
      account, and no pick or a short query gives nothing (the loop asks
      again). */
  function TemplateAnswer<R(!new)>(h: Helpers<R>, record: R, toAccount: int, tokens: seq<string>): (r: (Option<Decision>, seq<string>))
    ensures IsSuffix(r.1, tokens) && (tokens != [] ==> |r.1| < |tokens|)
    ensures r.0.Some? ==> r.0.value.Create? || r.0.value.Abort?
  {
    if tokens == [] then (Some(Abort(EOFError)), [])
    else if |tokens[0]| > 2 then
      var items := h.searchTxn(tokens[0]);
      var (picked, rest) := SearchReply(|items|, tokens[1..]);
      SuffixOfTail(rest, tokens, 1);
      match picked
      case Err(e) => (Some(Abort(e)), rest)
      case Ok(None) => (None, rest)
      case Ok(Some(i)) => (Some(Create(h.fromTemplate(items[i], record).(account := toAccount))), rest)
    else (None, tokens[1..])
  }

  /** The outer loop for a record without matches: `n`/`N` creates the
      candidate, `s`/`S` searches for a template (a query of at most two
      characters, or no template picked, asks again), and any other answer
      skips the record. */
  function NoMatchRound<R(!new)>(tables: Tables, h: Helpers<R>, store: Store, candidate: Txn, record: R, toAccount: int, tokens: seq<string>): (r: (Decision, seq<string>))
    ensures IsSuffix(r.1, tokens) && (tokens != [] ==> |r.1| < |tokens|)
    ensures r.0.Leave? || r.0.Create? || r.0.Abort?
    decreases |tokens|
  {
    if tokens == [] then (Abort(EOFError), [])
    else if tokens[0] == "n" || tokens[0] == "N" then
      var r := FromScratch(tables, store, candidate, tokens[1..]);
      SuffixOfTail(r.1, tokens, 1);
      r
    else if tokens[0] == "s" || tokens[0] == "S" then
      var (step, rest) := TemplateAnswer(h, record, toAccount, tokens[1..]);
      SuffixOfTail(rest, tokens, 1);
      if step.Some? then (step.value, rest)
      else
        var r := NoMatchRound(tables, h, store, candidate, record, toAccount, rest);
        SuffixOfTail(r.1, tokens, |tokens| - |rest|);
        r
    else (Leave, tokens[1..])
  }

  // ---- one record, and the whole file ----

  /** The body of `for txn in transactions` for one record. */
  function HandleRecord<R(!new)>(tables: Tables, h: Helpers<R>, toAccount: int, b: Books, record: R, tokens: seq<string>): (r: (Decision, seq<string>))
    requires FinderSound(h.find)
    ensures IsSuffix(r.1, tokens)
    ensures (r.0.Claim? || r.0.MarkReconciled?) ==> r.0.id in b.store
  {
    var found := h.find(b.store, b.matched, record);
    assert FoundIn(found, b.store);
    if |found.possibles| > 0 then
      if |found.possibles| == 1 && b.store[found.possibles[0]].reconciled then
        (Claim(found.possibles[0]), tokens)
      else
        var (step, rest) := MatchRound(|found.possibles|, tokens);
        (FromMatchStep(found.possibles, step), rest)
    else NoMatchRound(tables, h, b.store, found.candidate, record, toAccount, tokens)
  }

  datatype BatchResult = BatchResult(books: Books, rest: seq<string>, status: Status, claims: seq<int>)

  /** The records handled in order; the first error ends the run. `claims`
      lists the ids added to `matched`, in the order they were added. */
  function Batch<R(!new)>(tables: Tables, h: Helpers<R>, toAccount: int, b: Books, records: seq<R>, tokens: seq<string>): (r: BatchResult)
    requires FinderSound(h.find)
    ensures IsSuffix(r.rest, tokens)
    decreases |records|
  {
    if records == [] then BatchResult(b, tokens, Done, [])
    else
      var (d, rest) := HandleRecord(tables, h, toAccount, b, records[0], tokens);
      if d.Abort? then BatchResult(b, rest, Failed(d.error), [])
      else
        var next := Batch(tables, h, toAccount, Apply(b, d), records[1..], rest);
        SuffixOfTail(next.rest, tokens, |tokens| - |rest|);
        next.(claims := ClaimOf(b, d) + next.claims)
  }

  /** A record only ever claims an id that was not claimed before it. */
  lemma HandledClaimIsNew<R(!new)>(tables: Tables, h: Helpers<R>, toAccount: int, b: Books, record: R, tokens: seq<string>)
    requires FinderSound(h.find) && FinderExcludes(h.find) && BooksValid(b)
    ensures var d := HandleRecord(tables, h, toAccount, b, record, tokens).0;
      Elems(ClaimOf(b, d)) !! b.matched
  {
    var found := h.find(b.store, b.matched, record);
    assert FoundAvoids(found, b.matched);
    assert b.nextId !in b.store;
  }

  /** The claims of one record put in front of the claims of the rest of the
      run keep all claims distinct and new. */
  lemma PrependClaim(first: seq<int>, later: seq<int>, before: set<int>, after: set<int>)
    requires |first| <= 1 && Elems(first) !! before && after == before + Elems(first)
    requires Distinct(later) && Elems(later) !! after
    ensures Distinct(first + later) && Elems(first + later) !! before
    ensures Elems(first + later) == Elems(first) + Elems(later)
  {
    var all := first + later;
    forall i, j | 0 <= i < j < |all| ensures all[i] != all[j] {
      if i >= |first| {
        assert all[i] == later[i - |first|] && all[j] == later[j - |first|];
      } else {
        assert all[i] in Elems(first) && all[j] == later[j - |first|];
      }
    }
    assert forall k :: 0 <= k < |all| ==> all[k] in Elems(first) || all[k] in Elems(later);
  }

  /** No stored row is claimed twice in one run, provided `findTransactions`
      leaves out the ids claimed so far: the claims are pairwise distinct,
      none was claimed before the run, and `matched` ends as exactly the ids
      claimed. */
  lemma {:induction false} ClaimsAreDistinct<R(!new)>(tables: Tables, h: Helpers<R>, toAccount: int, b: Books, records: seq<R>, tokens: seq<string>)
    requires FinderSound(h.find) && FinderExcludes(h.find) && BooksValid(b)
    ensures var r := Batch(tables, h, toAccount, b, records, tokens);
      && BooksValid(r.books)
      && r.books.matched == b.matched + Elems(r.claims)
      && Elems(r.claims) !! b.matched
      && Distinct(r.claims)
    decreases |records|
  {
    if records != [] {
      var (d, rest) := HandleRecord(tables, h, toAccount, b, records[0], tokens);
      if !d.Abort? {
        HandledClaimIsNew(tables, h, toAccount, b, records[0], tokens);
        ApplyKeepsValid(b, d);
        var b' := Apply(b, d);
        ClaimsAreDistinct(tables, h, toAccount, b', records[1..], rest);
        var next := Batch(tables, h, toAccount, b', records[1..], rest);
        PrependClaim(ClaimOf(b, d), next.claims, b.matched, b'.matched);
      }
    }
  }

  /** `load_transactions`: the starting balance of the import account is
      shown first, and a missing one (no top-level rows yet) raises TypeError
      before any record is handled; the run then starts with no id claimed. */
  function LoadTransactions<R(!new)>(tables: Tables, h: Helpers<R>, toAccount: int, b: Books, records: seq<R>, tokens: seq<string>): (r: BatchResult)
    requires FinderSound(h.find)
    ensures CurrentBalance(b.store, toAccount).None? ==>
      r.status == Failed(TypeError) && r.books.store == b.store && r.rest == tokens && r.claims == []
  {
    if CurrentBalance(b.store, toAccount).None? then BatchResult(b.(matched := {}), tokens, Failed(TypeError), [])
    else Batch(tables, h, toAccount, b.(matched := {}), records, tokens)
  }

  /** Over a whole run every claimed id is claimed once, and `matched` ends as
      the set of claims. */
  lemma LoadClaimsOnce<R(!new)>(tables: Tables, h: Helpers<R>, toAccount: int, b: Books, records: seq<R>, tokens: seq<string>)
    requires FinderSound(h.find) && FinderExcludes(h.find) && BooksValid(b)
    ensures var r := LoadTransactions(tables, h, toAccount, b, records, tokens);
      && r.books.matched == Elems(r.claims)
      && |r.books.matched| == |r.claims|
  {
    ClaimsAreDistinct(tables, h, toAccount, b.(matched := {}), records, tokens);
    var r := LoadTransactions(tables, h, toAccount, b, records, tokens);
    DistinctCardinality(r.claims);
  }

  lemma {:induction false} DistinctCardinality(s: seq<int>)
    requires Distinct(s)
    ensures |Elems(s)| == |s|
  {
    if s != [] {
      DistinctCardinality(s[1..]);
      assert Elems(s) == {s[0]} + Elems(s[1..]);
      assert s[0] !in Elems(s[1..]);
    }
  }

  // ---- the properties of single answers ----

  /** A single candidate that is already reconciled is claimed without a
      question and nothing else changes. */
  lemma AutoConfirm<R(!new)>(tables: Tables, h: Helpers<R>, toAccount: int, b: Books, record: R, tokens: seq<string>)
    requires FinderSound(h.find)
    requires var f := h.find(b.store, b.matched, record);
      |f.possibles| == 1 && f.possibles[0] in b.store && b.store[f.possibles[0]].reconciled
    ensures var p := h.find(b.store, b.matched, record).possibles[0];
      && HandleRecord(tables, h, toAccount, b, record, tokens) == (Claim(p), tokens)
      && Apply(b, Claim(p)) == b.(matched := b.matched + {p})
  {
  }

  /** `r<N>` with N a position of the list marks that row reconciled and
      claims it; on a row already reconciled it changes no row. */
  lemma ReconcileTyped(b: Books, possibles: seq<int>, n: nat, rest: seq<string>)
    requires n < |possibles| && possibles[n] in b.store
    ensures MatchRound(|possibles|, ["r" + ShowInt(n)] + rest) == (Choose(n, true), rest)
    ensures var p := possibles[n];
      Apply(b, FromMatchStep(possibles, Choose(n, true))) ==
        b.(store := b.store[p := b.store[p].(reconciled := true)], matched := b.matched + {p})
    ensures b.store[possibles[n]].reconciled ==>
      Apply(b, FromMatchStep(possibles, Choose(n, true))).store == b.store
  {
    CommandOfTypedIndex(n);
    assert (["r" + ShowInt(n)] + rest)[1..] == rest;
  }

  /** `i<N>` with N a position of the list claims that row and changes none. */
  lemma IgnoreTyped(b: Books, possibles: seq<int>, n: nat, rest: seq<string>)
    requires n < |possibles|
    ensures MatchRound(|possibles|, ["i" + ShowInt(n)] + rest) == (Choose(n, false), rest)
    ensures Apply(b, FromMatchStep(possibles, Choose(n, false))) == b.(matched := b.matched + {possibles[n]})
  {
    CommandOfTypedIndex(n);
    assert (["i" + ShowInt(n)] + rest)[1..] == rest;
  }

  /** An index outside the list changes nothing and asks about the same
      record again. */
  lemma OutOfRangeAsksAgain(count: nat, n: int, rest: seq<string>)
    requires n < 0 || n >= count
    ensures MatchRound(count, ["r" + ShowInt(n)] + rest) == MatchRound(count, rest)
    ensures MatchRound(count, ["i" + ShowInt(n)] + rest) == MatchRound(count, rest)
  {
    CommandOfTypedIndex(n);
    assert (["r" + ShowInt(n)] + rest)[1..] == rest;
    assert (["i" + ShowInt(n)] + rest)[1..] == rest;
  }

  /** An answer starting with `s` finishes the record and changes nothing. */
  lemma AcceptLeavesBooks(b: Books, possibles: seq<int>, answer: string, rest: seq<string>)
    requires StartsWith(answer, 's')
    ensures MatchRound(|possibles|, [answer] + rest) == (AcceptShown, rest)
    ensures Apply(b, FromMatchStep(possibles, AcceptShown)) == b
  {
    assert ([answer] + rest)[1..] == rest;
  }

  /** An answer starting with none of `s`, `r`, `i` asks again. */
  lemma UnknownAsksAgain(count: nat, answer: string, rest: seq<string>)
    requires !StartsWith(answer, 's') && !StartsWith(answer, 'r') && !StartsWith(answer, 'i')
    ensures MatchRound(count, [answer] + rest) == MatchRound(count, rest)
  {
    assert ([answer] + rest)[1..] == rest;
  }

  /** `r` or `i` followed by text int() refuses ends the run with ValueError. */
  lemma BadNumberRaises(count: nat, answer: string, rest: seq<string>)
    requires StartsWith(answer, 'r') || StartsWith(answer, 'i')
    requires ParseInt(answer[1..]).None?
    ensures MatchRound(count, [answer] + rest) == (Raise(ValueError(answer[1..])), rest)
  {
    assert ([answer] + rest)[1..] == rest;
  }

  /** A search query of two characters or fewer asks again. */
  lemma ShortQueryAsksAgain<R(!new)>(tables: Tables, h: Helpers<R>, store: Store, c: Txn, record: R, toAccount: int, key: string, query: string, rest: seq<string>)
    requires key == "s" || key == "S"
    requires |query| <= 2
    ensures NoMatchRound(tables, h, store, c, record, toAccount, [key, query] + rest) ==
      NoMatchRound(tables, h, store, c, record, toAccount, rest)
  {
    assert ([key, query] + rest)[1..] == [query] + rest;
    assert ([query] + rest)[1..] == rest;
  }

  /** A picked template is saved under the import account; no pick asks
      again. */
  lemma TemplatePicked<R(!new)>(tables: Tables, h: Helpers<R>, store: Store, c: Txn, record: R, toAccount: int, key: string, query: string, rest: seq<string>)
    requires key == "s" || key == "S"
    requires |query| > 2
    ensures var items := h.searchTxn(query);
      var (picked, after) := SearchReply(|items|, rest);
      && (picked.Ok? && picked.value.Some? ==>
           NoMatchRound(tables, h, store, c, record, toAccount, [key, query] + rest) ==
             (Create(h.fromTemplate(items[picked.value.value], record).(account := toAccount)), after))
      && (picked.Ok? && picked.value.None? ==>
           NoMatchRound(tables, h, store, c, record, toAccount, [key, query] + rest) ==
             NoMatchRound(tables, h, store, c, record, toAccount, after))
  {
    assert ([key, query] + rest)[1..] == [query] + rest;
    assert ([query] + rest)[1..] == rest;
  }

  /** Any answer other than `n`, `N`, `s`, `S` skips the record: nothing is
      saved and nothing claimed. */
  lemma OtherKeySkips<R(!new)>(tables: Tables, h: Helpers<R>, store: Store, c: Txn, record: R, toAccount: int, key: string, rest: seq<string>)
    requires key != "n" && key != "N" && key != "s" && key != "S"
    ensures NoMatchRound(tables, h, store, c, record, toAccount, [key] + rest) == (Leave, rest)
  {
    assert ([key] + rest)[1..] == rest;
  }

  /** The `n` answer saves the completed candidate once, under a new id that
      joins `matched`. */
  lemma NewSavedOnce(tables: Tables, b: Books, c: Txn, tokens: seq<string>)
    requires BooksValid(b)
    ensures var (d, _) := FromScratch(tables, b.store, c, tokens);
      d.Create? ==>
        && d.txn.amount == c.amount && d.txn.date == c.date && d.txn.account == c.account
        && Apply(b, d).store == b.store[b.nextId := d.txn]
        && Apply(b, d).matched == b.matched + {b.nextId}
        && b.nextId !in b.store
  {
  }
}
