/** Account balances: `current_account_balance`, the sum over an account's
    top-level transactions, and `recent_transactions`, the newest rows of an
    account, each beside the current balance less the amounts of the rows
    listed above it. */
module Balance {
  import opened Ledger

  lemma MinExists(s: set<int>)
    requires s != {}
    ensures exists m :: m in s && forall x :: x in s ==> m <= x
    decreases |s|
  {
    if forall x :: x !in s {
      assert false;
    }
    var y :| y in s;
    if s == {y} {
      assert forall x :: x in s ==> y <= x;
    } else {
      var rest := s - {y};
      MinExists(rest);
      var m :| m in rest && forall x :: x in rest ==> m <= x;
      var least := if y < m then y else m;
      forall x | x in s ensures least <= x {
        if x != y {
          assert x in rest;
        }
      }
      assert least in s;
    }
  }

  /** The smallest id of a non-empty set of ids. */
  function MinOf(s: set<int>): (m: int)
    requires s != {}
    ensures m in s && forall x :: x in s ==> m <= x
  {
    MinExists(s);
    var m :| m in s && forall x :: x in s ==> m <= x;
    m
  }

  /** The sum of the amounts of the rows with the given ids. */
  function SumAmounts(store: Store, ids: set<int>): int
    requires ids <= store.Keys
    decreases ids
  {
    if ids == {} then 0
    else
      var m := MinOf(ids);
      store[m].amount + SumAmounts(store, ids - {m})
  }

  /** A sum over a set does not depend on which row is taken first. */
  lemma {:induction false} SumWithout(store: Store, ids: set<int>, k: int)
    requires ids <= store.Keys && k in ids
    ensures SumAmounts(store, ids) == store[k].amount + SumAmounts(store, ids - {k})
    decreases ids
  {
    var m := MinOf(ids);
    if m != k {
      SumWithout(store, ids - {m}, k);
      SumWithout(store, ids - {k}, m);
      assert ids - {m} - {k} == ids - {k} - {m};
      assert MinOf(ids - {k}) == m;
    }
  }

  /** A sum only reads the amounts of the rows it sums. */
  lemma {:induction false} SumOnlyReadsAmounts(s1: Store, s2: Store, ids: set<int>)
    requires ids <= s1.Keys && ids <= s2.Keys
    requires forall id :: id in ids ==> s1[id].amount == s2[id].amount
    ensures SumAmounts(s1, ids) == SumAmounts(s2, ids)
    decreases ids
  {
    if ids != {} {
      SumOnlyReadsAmounts(s1, s2, ids - {MinOf(ids)});
    }
  }

  /** The ids of an account's transactions that are not split children. */
  function TopLevelIds(store: Store, account: int): set<int> {
    set id | id in store && store[id].account == account && store[id].parent.None?
  }

  /** All ids of an account's transactions, split children included. */
  function AccountIds(store: Store, account: int): set<int> {
    set id | id in store && store[id].account == account
  }

  /** `current_account_balance`: the sum over the account's top-level rows, or
      nothing when there are none (an empty aggregate is NULL). */
  function CurrentBalance(store: Store, account: int): (r: Option<int>)
    ensures r.None? <==> forall id :: id in store ==> store[id].account != account || store[id].parent.Some?
    ensures r.Some? ==> r.value == SumAmounts(store, TopLevelIds(store, account))
  {
    var ids := TopLevelIds(store, account);
    if ids == {} then
      assert forall id :: id in store && store[id].account == account && store[id].parent.None? ==> id in ids;
      None
    else Some(SumAmounts(store, ids))
  }

  /** Saving a new top-level row moves its account's balance by its amount and
      leaves every other balance as it was; saving a split child moves none. */
  lemma BalanceAfterSave(store: Store, account: int, k: int, t: Txn)
    requires k !in store
    ensures CurrentBalance(store[k := t], account) ==
      if t.account == account && t.parent.None?
      then Some(CurrentBalance(store, account).GetOr(0) + t.amount)
      else CurrentBalance(store, account)
  {
    var s2 := store[k := t];
    var before, after := TopLevelIds(store, account), TopLevelIds(s2, account);
    SumOnlyReadsAmounts(store, s2, before);
    if t.account == account && t.parent.None? {
      assert after == before + {k};
      SumWithout(s2, after, k);
      assert after - {k} == before;
    } else {
      assert after == before;
    }
  }

  /** Marking a row reconciled changes no balance. */
  lemma BalanceIgnoresReconciled(store: Store, account: int, id: int)
    requires id in store
    ensures CurrentBalance(store[id := store[id].(reconciled := true)], account) == CurrentBalance(store, account)
  {
    var s2 := store[id := store[id].(reconciled := true)];
    assert TopLevelIds(s2, account) == TopLevelIds(store, account);
    SumOnlyReadsAmounts(store, s2, TopLevelIds(store, account));
  }

  /** Every split child belongs to a top-level row of its own account. */
  ghost predicate SplitsConsistent(store: Store) {
    forall id :: id in store && store[id].parent.Some? ==>
      var p := store[id].parent.value;
      p in store && store[p].parent.None? && store[p].account == store[id].account
  }

  /** On a consistent ledger an account without a balance has no rows. */
  lemma NoBalanceNoRows(store: Store, account: int)
    requires SplitsConsistent(store)
    ensures CurrentBalance(store, account).None? <==> AccountIds(store, account) == {}
  {
    var ids := AccountIds(store, account);
    assert TopLevelIds(store, account) <= ids;
    if ids != {} {
      if forall x :: x !in ids {
        assert false;
      }
      var id :| id in ids;
      var top := if store[id].parent.None? then id else store[id].parent.value;
      assert top in TopLevelIds(store, account);
    }
  }

  // ---- the order of `order_by('-date', '-num', '-id')` ----

  /** Code-point order on strings: a proper prefix comes first. */
  predicate StrBefore(a: string, b: string)
    decreases |a|
  {
    if a == [] then b != []
    else if b == [] then false
    else a[0] < b[0] || (a[0] == b[0] && StrBefore(a[1..], b[1..]))
  }

  lemma {:induction false} StrBeforeTransitive(a: string, b: string, c: string)
    requires StrBefore(a, b) && StrBefore(b, c)
    ensures StrBefore(a, c)
    decreases |a|
  {
    if a != [] && a[0] == b[0] && b[0] == c[0] {
      StrBeforeTransitive(a[1..], b[1..], c[1..]);
    }
  }

  lemma {:induction false} StrBeforeTotal(a: string, b: string)
    requires a != b
    ensures StrBefore(a, b) || StrBefore(b, a)
    decreases |a|
  {
    if a != [] && b != [] && a[0] == b[0] {
      assert a == [a[0]] + a[1..] && b == [b[0]] + b[1..];
      StrBeforeTotal(a[1..], b[1..]);
    }
  }

  lemma {:induction false} StrBeforeIrreflexive(a: string)
    ensures !StrBefore(a, a)
    decreases |a|
  {
    if a != [] {
      StrBeforeIrreflexive(a[1..]);
    }
  }

  /** Ascending order of `num`: a missing number sorts lowest, as NULL does in
      SQLite. */
  predicate NumBefore(a: Option<string>, b: Option<string>) {
    match (a, b)
    case (None, Some(_)) => true
    case (Some(x), Some(y)) => StrBefore(x, y)
    case (_, None) => false
  }

  /** Row `a` is listed before row `b`: later date first, then higher `num`,
      then higher id. */
  predicate ListedBefore(store: Store, a: int, b: int)
    requires a in store && b in store
  {
    var x, y := store[a], store[b];
    || DateBefore(y.date, x.date)
    || (x.date == y.date && NumBefore(y.num, x.num))
    || (x.date == y.date && x.num == y.num && b < a)
  }

  lemma ListedBeforeIrreflexive(store: Store, a: int)
    requires a in store
    ensures !ListedBefore(store, a, a)
  {
    if store[a].num.Some? {
      StrBeforeIrreflexive(store[a].num.value);
    }
  }

  lemma ListedBeforeTransitive(store: Store, a: int, b: int, c: int)
    requires a in store && b in store && c in store
    requires ListedBefore(store, a, b) && ListedBefore(store, b, c)
    ensures ListedBefore(store, a, c)
  {
    var x, y, z := store[a], store[b], store[c];
    if x.date == y.date == z.date && x.num.Some? && y.num.Some? && z.num.Some? {
      if StrBefore(z.num.value, y.num.value) && StrBefore(y.num.value, x.num.value) {
        StrBeforeTransitive(z.num.value, y.num.value, x.num.value);
      }
    }
  }

  /** Distinct rows are always listed one way or the other. */
  lemma ListedBeforeTotal(store: Store, a: int, b: int)
    requires a in store && b in store && a != b
    ensures ListedBefore(store, a, b) || ListedBefore(store, b, a)
  {
    var x, y := store[a], store[b];
    if x.num.Some? && y.num.Some? && x.num != y.num {
      StrBeforeTotal(x.num.value, y.num.value);
    }
  }

  predicate SortedByListing(store: Store, ids: seq<int>)
    requires forall k :: 0 <= k < |ids| ==> ids[k] in store
  {
    forall i, j :: 0 <= i < j < |ids| ==> ListedBefore(store, ids[i], ids[j])
  }

  /** A row listed before every row of a sorted listing can head it. */
  lemma PrependSorted(store: Store, x: int, ids: seq<int>)
    requires x in store && forall i :: 0 <= i < |ids| ==> ids[i] in store
    requires SortedByListing(store, ids)
    requires forall j :: 0 <= j < |ids| ==> ListedBefore(store, x, ids[j])
    ensures SortedByListing(store, [x] + ids)
  {
    var r := [x] + ids;
    forall i, j | 0 <= i < j < |r| ensures ListedBefore(store, r[i], r[j]) {
      if i > 0 {
        assert r[i] == ids[i - 1] && r[j] == ids[j - 1];
      }
    }
  }

  /** The head of a sorted listing comes before every row of the rest with
      one more row inserted after it. */
  lemma HeadBeforeInserted(store: Store, k: int, ids: seq<int>, tail: seq<int>)
    requires k in store && forall i :: 0 <= i < |ids| ==> ids[i] in store
    requires ids != [] && SortedByListing(store, ids) && ListedBefore(store, ids[0], k)
    requires forall i :: 0 <= i < |tail| ==> tail[i] in store
    requires multiset(tail) == multiset(ids[1..]) + multiset{k}
    ensures forall j :: 0 <= j < |tail| ==> ListedBefore(store, ids[0], tail[j])
  {
    forall j | 0 <= j < |tail| ensures ListedBefore(store, ids[0], tail[j]) {
      assert tail[j] in multiset(tail);
      if tail[j] != k {
        assert tail[j] in multiset(ids[1..]);
        var m :| 0 <= m < |ids[1..]| && ids[1..][m] == tail[j];
        assert ids[m + 1] == tail[j];
      }
    }
  }

  function Insert(store: Store, k: int, ids: seq<int>): (r: seq<int>)
    requires k in store && forall i :: 0 <= i < |ids| ==> ids[i] in store
    requires k !in ids && SortedByListing(store, ids)
    ensures multiset(r) == multiset(ids) + multiset{k}
    ensures forall i :: 0 <= i < |r| ==> r[i] in store
    ensures SortedByListing(store, r)
    decreases |ids|
  {
    if ids == [] then [k]
    else if ListedBefore(store, k, ids[0]) then
      assert forall j :: 0 < j < |ids| ==> ListedBefore(store, k, ids[j]) by {
        forall j | 0 < j < |ids| ensures ListedBefore(store, k, ids[j]) {
          ListedBeforeTransitive(store, k, ids[0], ids[j]);
        }
      }
      PrependSorted(store, k, ids);
      [k] + ids
    else
      ListedBeforeTotal(store, k, ids[0]);
      var tail := Insert(store, k, ids[1..]);
      assert ids == [ids[0]] + ids[1..];
      HeadBeforeInserted(store, k, ids, tail);
      PrependSorted(store, ids[0], tail);
      assert multiset([ids[0]] + tail) == multiset{ids[0]} + multiset(ids[1..]) + multiset{k};
      [ids[0]] + tail
  }

  /** The ids of a set in listing order: every id once, newest first. */
  function OrderIds(store: Store, ids: set<int>): (r: seq<int>)
    requires ids <= store.Keys
    ensures forall i :: 0 <= i < |r| ==> r[i] in store
    ensures multiset(r) == multiset(ids)
    ensures SortedByListing(store, r)
    decreases ids
  {
    if ids == {} then []
    else
      var m := MinOf(ids);
      var rest := OrderIds(store, ids - {m});
      assert m !in multiset(rest);
      assert multiset(ids - {m}) + multiset{m} == multiset(ids);
      Insert(store, m, rest)
  }

  /** The rows `recent_transactions` lists: at most `count` of the account's
      transactions, split children included, newest first. */
  function RecentIds(store: Store, account: int, count: nat): (r: seq<int>)
    ensures |r| <= count
    ensures forall i :: 0 <= i < |r| ==> r[i] in store && store[r[i]].account == account
  {
    var ids := AccountIds(store, account);
    var all := OrderIds(store, ids);
    assert forall i :: 0 <= i < |all| ==> all[i] in multiset(all) && all[i] in ids;
    all[..if count < |all| then count else |all|]
  }

  /** The listed rows are the newest of the account: each appears once, they
      come in listing order, there are `count` of them unless the account has
      fewer, and every row of the account left off is listed after them all. */
  lemma {:induction false} RecentAreNewest(store: Store, account: int, count: nat)
    ensures var r := RecentIds(store, account, count);
      && (forall i :: 0 <= i < |r| ==> r[i] in AccountIds(store, account))
      && SortedByListing(store, r)
      && |r| == (if count < |AccountIds(store, account)| then count else |AccountIds(store, account)|)
      && forall id, i :: id in AccountIds(store, account) && id !in r && 0 <= i < |r| ==> ListedBefore(store, r[i], id)
  {
    var ids := AccountIds(store, account);
    var all := OrderIds(store, ids);
    var r := RecentIds(store, account, count);
    assert |all| == |multiset(all)| == |multiset(ids)| == |ids|;
    forall i | 0 <= i < |all| ensures all[i] in ids {
      assert all[i] in multiset(all);
    }
    forall id, i | id in ids && id !in r && 0 <= i < |r| ensures ListedBefore(store, r[i], id) {
      assert id in multiset(all);
      var j :| 0 <= j < |all| && all[j] == id;
      assert forall j' :: 0 <= j' < |r| ==> all[j'] == r[j'];
      assert i < j;
    }
  }

  /** The sum of the amounts of the listed rows. */
  function SumOfRows(store: Store, ids: seq<int>): int
    requires forall i :: 0 <= i < |ids| ==> ids[i] in store
  {
    if ids == [] then 0 else SumOfRows(store, ids[..|ids| - 1]) + store[ids[|ids| - 1]].amount
  }

  /** One line of the history: the row and the balance shown beside it. */
  datatype HistoryRow = HistoryRow(id: int, txn: Txn, balance: int)

  /** `recent_transactions`: starts from the current balance and takes each
      listed row's amount off after showing it. Without split children in the
      listing a row shows the balance as it stood just after that row; listed
      children are taken off as well, though the balance never counted them.
      With no balance at all, the first row ends the run with TypeError. */
  method RecentTransactions(store: Store, account: int, count: nat) returns (r: Outcome<seq<HistoryRow>>)
    ensures var ids := RecentIds(store, account, count);
      match CurrentBalance(store, account)
      case None => r == (if ids == [] then Ok([]) else Err(TypeError))
      case Some(total) =>
        && r.Ok? && |r.value| == |ids|
        && forall k :: 0 <= k < |ids| ==>
             && r.value[k].id == ids[k] && r.value[k].txn == store[ids[k]]
             && r.value[k].balance == total - SumOfRows(store, ids[..k])
  {
    var balance := CurrentBalance(store, account);
    var txns := RecentIds(store, account, count);
    if balance.None? {
      return if txns == [] then Ok([]) else Err(TypeError);
    }
    var rows := ShowRows(store, txns, balance.value);
    r := Ok(rows);
  }

  /** The loop of `recent_transactions` once a balance is known: each listed
      row is shown beside the running balance, which then drops by the row's
      amount. */
  method ShowRows(store: Store, txns: seq<int>, total: int) returns (rows: seq<HistoryRow>)
    requires forall i :: 0 <= i < |txns| ==> txns[i] in store
    ensures |rows| == |txns|
    ensures forall k :: 0 <= k < |txns| ==>
      && rows[k].id == txns[k] && rows[k].txn == store[txns[k]]
      && rows[k].balance == total - SumOfRows(store, txns[..k])
  {
    var shown := total;
    rows := [];
    var i := 0;
    while i < |txns|
      invariant 0 <= i <= |txns| && |rows| == i
      invariant shown == total - SumOfRows(store, txns[..i])
      invariant forall k :: 0 <= k < i ==>
        && rows[k].id == txns[k] && rows[k].txn == store[txns[k]]
        && rows[k].balance == total - SumOfRows(store, txns[..k])
    {
      var txn := store[txns[i]];
      ShownBalancesStep(store, txns, total, i + 1);
      ghost var before := rows;
      rows := rows + [HistoryRow(txns[i], txn, shown)];
      assert forall k :: 0 <= k < i ==> rows[k] == before[k];
      shown := shown - txn.amount;
      i := i + 1;
    }
  }

  /** A header of -61.5 split into -61.0 and -0.5, all on one day in
      account 7. */
  function SplitExample(): Store {
    var header := Txn(7, None, "rent", -61500, DateTime(0, Noon), None, None, None, false, None);
    map[1 := header, 2 := header.(parent := Some(1), amount := -61000), 3 := header.(parent := Some(1), amount := -500)]
  }

  lemma SplitExampleBalance()
    ensures CurrentBalance(SplitExample(), 7) == Some(-61500)
  {
    var store := SplitExample();
    assert TopLevelIds(store, 7) == {1};
    assert MinOf({1}) == 1;
    assert {1} - {1} == {};
  }

  lemma SplitExampleOrder()
    ensures var store := SplitExample();
      && ListedBefore(store, 3, 2) && !ListedBefore(store, 2, 3)
      && ListedBefore(store, 2, 1) && !ListedBefore(store, 1, 2)
      && ListedBefore(store, 3, 1) && !ListedBefore(store, 1, 3)
  {
  }

  lemma SplitExampleInserts()
    ensures Insert(SplitExample(), 2, [3]) == [3, 2]
    ensures Insert(SplitExample(), 1, [3, 2]) == [3, 2, 1]
  {
    var store := SplitExample();
    SplitExampleOrder();
    assert Insert(store, 2, [3]) == [3] + Insert(store, 2, []);
    assert [3, 2][1..] == [2];
    assert Insert(store, 1, [2]) == [2] + Insert(store, 1, []);
    assert Insert(store, 1, [3, 2]) == [3] + Insert(store, 1, [2]);
  }

  lemma SplitExampleMins()
    ensures MinOf({1, 2, 3}) == 1 && MinOf({2, 3}) == 2 && MinOf({3}) == 3
    ensures {1, 2, 3} - {1} == {2, 3} && {2, 3} - {2} == {3} && {3} - {3} == {}
  {
  }

  lemma SplitExampleOrdered()
    ensures OrderIds(SplitExample(), {1, 2, 3}) == [3, 2, 1]
  {
    var store := SplitExample();
    SplitExampleMins();
    SplitExampleInserts();
    var one := OrderIds(store, {3});
    assert one == Insert(store, 3, OrderIds(store, {}));
    assert one == [3];
    var two := OrderIds(store, {2, 3});
    assert two == Insert(store, 2, one);
    assert OrderIds(store, {1, 2, 3}) == Insert(store, 1, two);
  }

  lemma SplitExampleRows()
    ensures AccountIds(SplitExample(), 7) == {1, 2, 3}
  {
    var store := SplitExample();
    assert forall id :: id in AccountIds(store, 7) ==> id in store;
  }

  lemma SplitExampleListing()
    ensures RecentIds(SplitExample(), 7, 10) == [3, 2, 1]
  {
    SplitExampleRows();
    SplitExampleOrdered();
    ListingAll(SplitExample(), 7, 10, [3, 2, 1]);
  }

  /** When the count covers the whole listing, every row is shown. */
  lemma ListingAll(store: Store, account: int, count: nat, all: seq<int>)
    requires OrderIds(store, AccountIds(store, account)) == all && |all| <= count
    ensures RecentIds(store, account, count) == all
  {
    assert all[..|all|] == all;
  }

  /** Split children are listed and taken off the running balance, while the
      starting total counts top-level rows only: in the example the header is
      listed after its children and shown beside 0, not beside -61.5, the
      balance after it. */
  lemma SplitChildrenShiftShownBalance()
    ensures CurrentBalance(SplitExample(), 7) == Some(-61500)
    ensures RecentIds(SplitExample(), 7, 10) == [3, 2, 1]
    ensures -61500 - SumOfRows(SplitExample(), [3, 2, 1][..2]) == 0
  {
    SplitExampleBalance();
    SplitExampleListing();
    assert [3, 2, 1][..2] == [3, 2] && [3, 2][..1] == [3] && [3][..0] == [];
  }

  /** Each shown balance is the one above it less the amount of the row above
      it, and the first is the current balance. */
  lemma {:induction false} ShownBalancesStep(store: Store, ids: seq<int>, total: int, k: nat)
    requires forall i :: 0 <= i < |ids| ==> ids[i] in store
    requires 0 < k <= |ids|
    ensures total - SumOfRows(store, ids[..k]) == (total - SumOfRows(store, ids[..k - 1])) - store[ids[k - 1]].amount
    ensures total - SumOfRows(store, ids[..0]) == total
  {
    assert ids[..k][..k - 1] == ids[..k - 1];
  }
}
