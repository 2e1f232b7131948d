/** The two selection prompts, `prompt_by_name` and `search`. Each reads
    answers until one selects an item, one selects nothing (`none`), or the
    run ends. A reply pairs what was selected with the answers left unread. */
module Selection {
  import opened Ledger
  import opened Text
  import opened Balance

  /** What one answer to "which number do you want to select" does. */
  datatype Choice = NoItem | Picked(index: nat) | Retry

  /** `rest` is what is left of `tokens` after reading some of them. */
  predicate IsSuffix(rest: seq<string>, tokens: seq<string>) {
    |rest| <= |tokens| && rest == tokens[|tokens| - |rest|..]
  }

  lemma SuffixTransitive(a: seq<string>, b: seq<string>, c: seq<string>)
    requires IsSuffix(a, b) && IsSuffix(b, c)
    ensures IsSuffix(a, c)
  {
    assert c[|c| - |b|..][|b| - |a|..] == c[|c| - |a|..];
  }

  /** One `input()` call: the next answer, or EOFError when there is none. */
  function ReadLine(tokens: seq<string>): (r: (Outcome<string>, seq<string>))
    ensures IsSuffix(r.1, tokens) && (tokens != [] ==> |r.1| < |tokens|)
    ensures r.0.Ok? <==> tokens != []
    ensures r.0.Ok? ==> [r.0.value] + r.1 == tokens
    ensures r.0.Err? ==> r.0.error == EOFError && r.1 == []
  {
    if tokens == [] then (Err(EOFError), []) else (Ok(tokens[0]), tokens[1..])
  }

  /** The answer as the range check is written: an index equal to the length
      of the list passes the check, and indexing the query set there raises
      IndexError, which nothing catches. */
  function PickAsWritten(count: nat, answer: string): (r: Outcome<Choice>)
    ensures r.Err? <==> !IsNoneAnswer(answer) && ParseInt(answer).Some? && ParseInt(answer).value == count
    ensures r.Err? ==> r.error == IndexError(count)
    ensures r.Ok? ==> r.value == Pick(count, answer)
  {
    if IsNoneAnswer(answer) then Ok(NoItem)
    else match ParseInt(answer)
      case None => Ok(Retry)
      case Some(i) =>
        if i < 0 || i > count then Ok(Retry)
        else if i < count then Ok(Picked(i))
        else Err(IndexError(i))
  }

  /** The answer under the intended range check: `none` in any case selects
      nothing, an index of the list selects it, and anything else asks again. */
  function Pick(count: nat, answer: string): (c: Choice)
    ensures c.NoItem? <==> IsNoneAnswer(answer)
    ensures c.Picked? <==> !IsNoneAnswer(answer) && ParseInt(answer).Some? && 0 <= ParseInt(answer).value < count
    ensures c.Picked? ==> c.index as int == ParseInt(answer).value && c.index < count
  {
    if IsNoneAnswer(answer) then NoItem
    else match ParseInt(answer)
      case None => Retry
      case Some(i) => if i < 0 || i >= count then Retry else Picked(i)
  }

  /** Typing the length of the list ends the run with IndexError under the
      check as written, for every list, the empty one included. */
  lemma AsWrittenFailsAtLength(count: nat)
    ensures PickAsWritten(count, ShowInt(count)) == Err(IndexError(count))
    ensures Pick(count, ShowInt(count)) == Retry
  {
    ParseShowInt(count);
    ShowIntIsNotNone(count);
  }

  /** On every other answer the check as written and the intended one agree. */
  lemma AsWrittenAgreesElsewhere(count: nat, answer: string)
    requires IsNoneAnswer(answer) || ParseInt(answer) != Some(count)
    ensures PickAsWritten(count, answer) == Ok(Pick(count, answer))
  {
  }

  /** `search`: the operator picks one of `count` listed transactions by
      position, or none. */
  function SearchReply(count: nat, tokens: seq<string>): (r: (Outcome<Option<nat>>, seq<string>))
    ensures IsSuffix(r.1, tokens) && (tokens != [] ==> |r.1| < |tokens|)
    ensures r.0.Ok? && r.0.value.Some? ==> r.0.value.value < count
    ensures r.0.Err? ==> r.0.error == EOFError && r.1 == []
    decreases |tokens|
  {
    if tokens == [] then (Err(EOFError), [])
    else match Pick(count, tokens[0])
      case NoItem => (Ok(None), tokens[1..])
      case Picked(i) => (Ok(Some(i)), tokens[1..])
      case Retry => SearchReply(count, tokens[1..])
  }

  /** `prompt_by_name`: each round reads a name fragment (or `none`), lists
      the names containing it, and reads a position in that list (or `none`).
      The result is a position in `names`. */
  function ByNameReply(names: seq<string>, tokens: seq<string>): (r: (Outcome<Option<nat>>, seq<string>))
    ensures IsSuffix(r.1, tokens) && (tokens != [] ==> |r.1| < |tokens|)
    ensures r.0.Err? ==> r.0.error == EOFError && r.1 == []
    ensures r.0.Ok? && r.0.value.Some? ==>
      && r.0.value.value < |names|
      && |tokens| - |r.1| >= 2
      && Contains(names[r.0.value.value], tokens[|tokens| - |r.1| - 2])
    decreases |tokens|
  {
    if tokens == [] then (Err(EOFError), [])
    else if IsNoneAnswer(tokens[0]) then (Ok(None), tokens[1..])
    else if |tokens| == 1 then (Err(EOFError), [])
    else
      var found := Matching(names, tokens[0]);
      match Pick(|found|, tokens[1])
      case NoItem => (Ok(None), tokens[2..])
      case Picked(i) => (Ok(Some(found[i])), tokens[2..])
      case Retry =>
        var r := ByNameReply(names, tokens[2..]);
        assert tokens[2..][|tokens[2..]| - |r.1|..] == tokens[|tokens| - |r.1|..];
        r
  }

  /** `none`, in any case, selects nothing at once. */
  lemma NoneEscapes(names: seq<string>, count: nat, answer: string, rest: seq<string>)
    requires IsNoneAnswer(answer)
    ensures ByNameReply(names, [answer] + rest) == (Ok(None), rest)
    ensures SearchReply(count, [answer] + rest) == (Ok(None), rest)
  {
    assert ([answer] + rest)[1..] == rest;
  }

  /** An answer that is not an integer leaves the prompt where it was. */
  lemma NonIntegerAsksAgain(count: nat, answer: string, rest: seq<string>)
    requires !IsNoneAnswer(answer) && ParseInt(answer).None?
    ensures SearchReply(count, [answer] + rest) == SearchReply(count, rest)
  {
    assert ([answer] + rest)[1..] == rest;
  }

  /** In `prompt_by_name`, a query followed by an answer that is not a
      position of its match list starts over with a new query. */
  lemma ByNameRetry(names: seq<string>, query: string, answer: string, rest: seq<string>)
    requires !IsNoneAnswer(query) && !IsNoneAnswer(answer)
    requires ParseInt(answer).None? || !(0 <= ParseInt(answer).value < |Matching(names, query)|)
    ensures ByNameReply(names, [query, answer] + rest) == ByNameReply(names, rest)
  {
    assert ([query, answer] + rest)[2..] == rest;
  }

  /** Typing a position selects it exactly when it is a position of the list;
      any other number asks again. */
  lemma TypedPosition(count: nat, n: int, rest: seq<string>)
    ensures 0 <= n < count ==> SearchReply(count, [ShowInt(n)] + rest) == (Ok(Some(n as nat)), rest)
    ensures !(0 <= n < count) ==> SearchReply(count, [ShowInt(n)] + rest) == SearchReply(count, rest)
  {
    ParseShowInt(n);
    ShowIntIsNotNone(n);
    assert ([ShowInt(n)] + rest)[1..] == rest;
  }

  /** A name fragment followed by a position in its match list selects the
      table entry at that position of the list. */
  lemma TypedNameAndPosition(names: seq<string>, query: string, n: nat, rest: seq<string>)
    requires !IsNoneAnswer(query) && n < |Matching(names, query)|
    ensures ByNameReply(names, [query, ShowInt(n)] + rest) == (Ok(Some(Matching(names, query)[n])), rest)
  {
    ParseShowInt(n);
    ShowIntIsNotNone(n);
    assert ([query, ShowInt(n)] + rest)[2..] == rest;
  }

  /** `search` with the range check as written: typing the length of the
      list ends the run with IndexError. */
  function SearchReplyAsWritten(count: nat, tokens: seq<string>): (r: (Outcome<Option<nat>>, seq<string>))
    ensures IsSuffix(r.1, tokens)
    ensures r.0.Ok? && r.0.value.Some? ==> r.0.value.value < count
    ensures r.0.Err? ==> r.0.error == EOFError || r.0.error == IndexError(count)
    decreases |tokens|
  {
    if tokens == [] then (Err(EOFError), [])
    else match PickAsWritten(count, tokens[0])
      case Err(e) => (Err(e), tokens[1..])
      case Ok(NoItem) => (Ok(None), tokens[1..])
      case Ok(Picked(i)) => (Ok(Some(i)), tokens[1..])
      case Ok(Retry) => SearchReplyAsWritten(count, tokens[1..])
  }

  /** As written, `search` fails where the intended check asks again. */
  lemma SearchAsWrittenFailsAtLength(count: nat, rest: seq<string>)
    ensures SearchReplyAsWritten(count, [ShowInt(count)] + rest) == (Err(IndexError(count)), rest)
    ensures SearchReply(count, [ShowInt(count)] + rest) == SearchReply(count, rest)
  {
    AsWrittenFailsAtLength(count);
    ShowIntIsNotNone(count);
    assert ([ShowInt(count)] + rest)[1..] == rest;
  }

  /** Unless it ends in that IndexError, `search` as written reads the same
      answers and gives the same pick as under the intended check. */
  lemma {:induction false} SearchAsWrittenAgrees(count: nat, tokens: seq<string>)
    ensures SearchReplyAsWritten(count, tokens).0 != Err(IndexError(count)) ==>
      SearchReplyAsWritten(count, tokens) == SearchReply(count, tokens)
    decreases |tokens|
  {
    if tokens != [] && (IsNoneAnswer(tokens[0]) || ParseInt(tokens[0]) != Some(count)) {
      AsWrittenAgreesElsewhere(count, tokens[0]);
      SearchAsWrittenAgrees(count, tokens[1..]);
    }
  }

  /** `prompt_by_name` with the range check as written: typing the length of
      the match list ends the run with IndexError. */
  function ByNameReplyAsWritten(names: seq<string>, tokens: seq<string>): (r: (Outcome<Option<nat>>, seq<string>))
    ensures IsSuffix(r.1, tokens)
    ensures r.0.Ok? && r.0.value.Some? ==> r.0.value.value < |names|
    ensures r.0.Err? ==> r.0.error == EOFError || r.0.error.IndexError?
    decreases |tokens|
  {
    if tokens == [] then (Err(EOFError), [])
    else if IsNoneAnswer(tokens[0]) then (Ok(None), tokens[1..])
    else if |tokens| == 1 then (Err(EOFError), [])
    else
      var found := Matching(names, tokens[0]);
      match PickAsWritten(|found|, tokens[1])
      case Err(e) => (Err(e), tokens[2..])
      case Ok(NoItem) => (Ok(None), tokens[2..])
      case Ok(Picked(i)) => (Ok(Some(found[i])), tokens[2..])
      case Ok(Retry) =>
        var r := ByNameReplyAsWritten(names, tokens[2..]);
        assert tokens[2..][|tokens[2..]| - |r.1|..] == tokens[|tokens| - |r.1|..];
        r
  }

  /** As written, a name fragment followed by the length of its match list
      fails where the intended check asks again. */
  lemma ByNameAsWrittenFailsAtLength(names: seq<string>, query: string, rest: seq<string>)
    requires !IsNoneAnswer(query)
    ensures var n := |Matching(names, query)|;
      && ByNameReplyAsWritten(names, [query, ShowInt(n)] + rest) == (Err(IndexError(n)), rest)
      && ByNameReply(names, [query, ShowInt(n)] + rest) == ByNameReply(names, rest)
  {
    var n := |Matching(names, query)|;
    AsWrittenFailsAtLength(n);
    ShowIntIsNotNone(n);
    assert ([query, ShowInt(n)] + rest)[2..] == rest;
  }

  /** Unless it ends in an IndexError, `prompt_by_name` as written reads the
      same answers and gives the same pick as under the intended check. */
  lemma {:induction false} ByNameAsWrittenAgrees(names: seq<string>, tokens: seq<string>)
    ensures var r := ByNameReplyAsWritten(names, tokens);
      !(r.0.Err? && r.0.error.IndexError?) ==> r == ByNameReply(names, tokens)
    decreases |tokens|
  {
    if |tokens| >= 2 && !IsNoneAnswer(tokens[0]) {
      var n := |Matching(names, tokens[0])|;
      if IsNoneAnswer(tokens[1]) || ParseInt(tokens[1]) != Some(n) {
        AsWrittenAgreesElsewhere(n, tokens[1]);
        ByNameAsWrittenAgrees(names, tokens[2..]);
      }
    }
  }

  /** `prompt_for_category`: `prompt_by_name` over the category table, giving
      the id of the picked category. */
  function CategoryReply(tables: Tables, tokens: seq<string>): (r: (Outcome<Option<int>>, seq<string>))
    ensures IsSuffix(r.1, tokens)
    ensures r.0.Err? ==> r.0.error == EOFError && r.1 == []
    ensures r.0.Ok? && r.0.value.Some? ==>
      exists k :: 0 <= k < |tables.categories| && tables.categories[k].id == r.0.value.value
  {
    var (pick, rest) := ByNameReply(tables.CategoryNames(), tokens);
    if pick.Err? then (Err(pick.error), rest) else (Ok(tables.CategoryAt(pick.value)), rest)
  }

  /** `prompt_for_account`: `prompt_by_name` over the account table, giving the
      id of the picked account. The balance of a picked account is shown at
      once, and showing a missing balance (an account without top-level rows)
      raises TypeError. */
  function AccountReply(tables: Tables, store: Store, tokens: seq<string>): (r: (Outcome<Option<int>>, seq<string>))
    ensures IsSuffix(r.1, tokens)
    ensures r.0.Err? ==> r.0.error in {EOFError, TypeError}
    ensures r.0.Ok? && r.0.value.Some? ==>
      && (exists k :: 0 <= k < |tables.accounts| && tables.accounts[k].id == r.0.value.value)
      && CurrentBalance(store, r.0.value.value).Some?
    ensures var (pick, rest) := ByNameReply(tables.AccountNames(), tokens);
      var account := if pick.Ok? then tables.AccountAt(pick.value) else None;
      && r.1 == rest
      && (r.0 == Err(TypeError) <==> account.Some? && CurrentBalance(store, account.value).None?)
      && (pick.Ok? && !(account.Some? && CurrentBalance(store, account.value).None?) ==> r.0 == Ok(account))
  {
    var (pick, rest) := ByNameReply(tables.AccountNames(), tokens);
    if pick.Err? then (Err(pick.error), rest)
    else
      var account := tables.AccountAt(pick.value);
      if account.Some? && CurrentBalance(store, account.value).None? then (Err(TypeError), rest)
      else (Ok(account), rest)
  }

  /** Typing `none` at a name prompt picks nothing and reads nothing more. */
  lemma NoneSkipsLookup(tables: Tables, store: Store, answer: string, rest: seq<string>)
    requires IsNoneAnswer(answer)
    ensures CategoryReply(tables, [answer] + rest) == (Ok(None), rest)
    ensures AccountReply(tables, store, [answer] + rest) == (Ok(None), rest)
  {
    NoneEscapes(tables.CategoryNames(), 0, answer, rest);
    NoneEscapes(tables.AccountNames(), 0, answer, rest);
  }
}
