/**
 * The finance ledger of the multi-module draft (telegram-bot/src/finance.py): appending
 * transactions, and the report that sums a user's transactions grouped by type and
 * category (`GROUP BY type, category`) into income, expense, balance and one entry per
 * group.  The table only admits the types `income` and `expense`.
 */
module Finance {

  const IncomeKind := "income"
  const ExpenseKind := "expense"

  /** The table's `CHECK(type IN ('income', 'expense'))`. */
  predicate ValidKind(kind: string) {
    kind == IncomeKind || kind == ExpenseKind
  }

  /** A row of `finances` (`created_at` is not modelled; amounts are whole units). */
  datatype Row = Row(userId: int, amount: int, category: string, description: string, kind: string)

  /** A row of the grouped query: one type and category, and the sum of their amounts. */
  datatype Group = Group(kind: string, category: string, total: int)

  predicate SameKey(g: Group, r: Row) {
    g.kind == r.kind && g.category == r.category
  }

  /** No two groups share a type and a category. */
  ghost predicate DistinctKeys(groups: seq<Group>) {
    forall i, j :: 0 <= i < j < |groups| ==> groups[i].kind != groups[j].kind || groups[i].category != groups[j].category
  }

  /** The user's rows, each as often as in the table, in table order (`WHERE user_id = ?`). */
  function RowsOf(rows: seq<Row>, userId: int): (r: seq<Row>)
    ensures forall x :: x in r <==> x in rows && x.userId == userId
    ensures forall x :: multiset(r)[x] == if x.userId == userId then multiset(rows)[x] else 0
  {
    if rows == [] then []
    else
      var init := rows[..|rows| - 1];
      var last := rows[|rows| - 1];
      assert rows == init + [last];
      assert forall x :: x in rows <==> x in init || x == last;
      RowsOf(init, userId) + (if last.userId == userId then [last] else [])
  }

  /** The sum of the amounts of the rows with this type and category. */
  function KeySum(rows: seq<Row>, kind: string, category: string): int {
    if rows == [] then 0
    else
      var last := rows[|rows| - 1];
      KeySum(rows[..|rows| - 1], kind, category) + (if last.kind == kind && last.category == category then last.amount else 0)
  }

  function IncomePart(r: Row): int {
    if r.kind == IncomeKind then r.amount else 0
  }

  function ExpensePart(r: Row): int {
    if r.kind != IncomeKind then r.amount else 0
  }

  /** Income summed row by row. */
  function Income(rows: seq<Row>): int {
    if rows == [] then 0 else Income(rows[..|rows| - 1]) + IncomePart(rows[|rows| - 1])
  }

  /** Expense summed row by row: every row whose type is not `income`. */
  function Expense(rows: seq<Row>): int {
    if rows == [] then 0 else Expense(rows[..|rows| - 1]) + ExpensePart(rows[|rows| - 1])
  }

  /** Income summed group by group, as the report loop does. */
  function GroupIncome(groups: seq<Group>): int {
    if groups == [] then 0 else (if groups[0].kind == IncomeKind then groups[0].total else 0) + GroupIncome(groups[1..])
  }

  function GroupExpense(groups: seq<Group>): int {
    if groups == [] then 0 else (if groups[0].kind != IncomeKind then groups[0].total else 0) + GroupExpense(groups[1..])
  }

  lemma {:induction false} GroupSumsAppend(a: seq<Group>, b: seq<Group>)
    ensures GroupIncome(a + b) == GroupIncome(a) + GroupIncome(b)
    ensures GroupExpense(a + b) == GroupExpense(a) + GroupExpense(b)
  {
    if a != [] {
      assert (a + b)[0] == a[0] && (a + b)[1..] == a[1..] + b;
      GroupSumsAppend(a[1..], b);
    } else {
      assert a + b == b;
    }
  }

  /** The total of the group with this type and category, or 0 when there is none. */
  function KeyTotal(groups: seq<Group>, kind: string, category: string): int {
    if groups == [] then 0
    else if groups[0].kind == kind && groups[0].category == category then groups[0].total
    else KeyTotal(groups[1..], kind, category)
  }

  /** Adds one row to the groups: to the total of its group, or as a new group at the end. */
  function AddToGroups(groups: seq<Group>, r: Row): (g: seq<Group>)
    ensures forall x :: x in g ==> SameKey(x, r) || x in groups
    ensures DistinctKeys(groups) ==> DistinctKeys(g)
  {
    if groups == [] then
      [Group(r.kind, r.category, r.amount)]
    else if SameKey(groups[0], r) then
      var g := [groups[0].(total := groups[0].total + r.amount)] + groups[1..];
      assert forall x :: x in g ==> x == g[0] || x in groups;
      DistinctAfterMerge(groups, groups[0].total + r.amount);
      g
    else
      var rest := AddToGroups(groups[1..], r);
      var g := [groups[0]] + rest;
      assert forall x :: x in groups[1..] ==> x in groups;
      assert forall x :: x in g ==> x == groups[0] || x in rest;
      DistinctAfterAdd(groups, r, rest);
      g
  }

  /** Adding a row moves the grouped income or expense by its amount. */
  lemma {:induction false} AddToGroupsSums(groups: seq<Group>, r: Row)
    ensures GroupIncome(AddToGroups(groups, r)) == GroupIncome(groups) + IncomePart(r)
    ensures GroupExpense(AddToGroups(groups, r)) == GroupExpense(groups) + ExpensePart(r)
  {
    if groups != [] && !SameKey(groups[0], r) {
      AddToGroupsSums(groups[1..], r);
    }
  }

  /** Adding a row adds its amount to the total of its own group and to no other. */
  lemma {:induction false} AddToGroupsTotal(groups: seq<Group>, r: Row, kind: string, category: string)
    ensures KeyTotal(AddToGroups(groups, r), kind, category)
         == KeyTotal(groups, kind, category) + (if kind == r.kind && category == r.category then r.amount else 0)
  {
    if groups != [] && !SameKey(groups[0], r) {
      AddToGroupsTotal(groups[1..], r, kind, category);
    }
  }

  /** Changing the total of the first group keeps the keys distinct. */
  lemma DistinctAfterMerge(groups: seq<Group>, total: int)
    requires groups != []
    ensures DistinctKeys(groups) ==> DistinctKeys([groups[0].(total := total)] + groups[1..])
  {
    var g := [groups[0].(total := total)] + groups[1..];
    assert forall i :: 0 <= i < |g| ==> g[i].kind == groups[i].kind && g[i].category == groups[i].category;
  }

  /** Putting back in front a group whose key the row does not have keeps the keys distinct. */
  lemma DistinctAfterAdd(groups: seq<Group>, r: Row, added: seq<Group>)
    requires groups != [] && !SameKey(groups[0], r)
    requires forall x :: x in added ==> SameKey(x, r) || x in groups[1..]
    requires DistinctKeys(groups[1..]) ==> DistinctKeys(added)
    ensures DistinctKeys(groups) ==> DistinctKeys([groups[0]] + added)
  {
    if DistinctKeys(groups) {
      var first := groups[0];
      var rest := groups[1..];
      assert DistinctKeys(rest) by {
        forall i, j | 0 <= i < j < |rest|
          ensures rest[i].kind != rest[j].kind || rest[i].category != rest[j].category
        {
          assert rest[i] == groups[i + 1] && rest[j] == groups[j + 1];
        }
      }
      forall x | x in rest
        ensures first.kind != x.kind || first.category != x.category
      {
        var j :| 0 <= j < |rest| && rest[j] == x;
        assert groups[j + 1] == x;
      }
      var g := [first] + added;
      forall i, j | 0 <= i < j < |g|
        ensures g[i].kind != g[j].kind || g[i].category != g[j].category
      {
        if i > 0 {
          assert g[i] == added[i - 1] && g[j] == added[j - 1];
        } else {
          assert g[j] in added;
        }
      }
    }
  }

  /** `GROUP BY type, category` over rows in table order: one group per key, in order of first appearance. */
  function Grouped(rows: seq<Row>): seq<Group> {
    if rows == [] then [] else AddToGroups(Grouped(rows[..|rows| - 1]), rows[|rows| - 1])
  }

  /** Summing the groups gives what summing the rows gives. */
  lemma {:induction false} GroupedSums(rows: seq<Row>)
    ensures GroupIncome(Grouped(rows)) == Income(rows)
    ensures GroupExpense(Grouped(rows)) == Expense(rows)
  {
    if rows != [] {
      GroupedSums(rows[..|rows| - 1]);
      AddToGroupsSums(Grouped(rows[..|rows| - 1]), rows[|rows| - 1]);
    }
  }

  /** Each group's total is the sum of the amounts of the rows with its type and category. */
  lemma {:induction false} GroupedTotals(rows: seq<Row>, kind: string, category: string)
    ensures KeyTotal(Grouped(rows), kind, category) == KeySum(rows, kind, category)
  {
    if rows != [] {
      GroupedTotals(rows[..|rows| - 1], kind, category);
      AddToGroupsTotal(Grouped(rows[..|rows| - 1]), rows[|rows| - 1], kind, category);
    }
  }

  /** Every group of the query stands for a distinct type and category, and its type is one the table admits. */
  lemma {:induction false} GroupedKeys(rows: seq<Row>)
    requires forall x :: x in rows ==> ValidKind(x.kind)
    ensures DistinctKeys(Grouped(rows))
    ensures forall g :: g in Grouped(rows) ==> ValidKind(g.kind)
  {
    if rows != [] {
      var init := rows[..|rows| - 1];
      assert forall x :: x in init ==> x in rows;
      GroupedKeys(init);
      assert rows[|rows| - 1] in rows;
    }
  }

  /** The key of `categories`: `"{type}_{category}"`. */
  function CategoryKey(kind: string, category: string): string {
    kind + "_" + category
  }

  /** With the two admitted types, different groups never share a `categories` key. */
  lemma CategoryKeyInjective(k1: string, c1: string, k2: string, c2: string)
    requires ValidKind(k1) && ValidKind(k2)
    requires CategoryKey(k1, c1) == CategoryKey(k2, c2)
    ensures k1 == k2 && c1 == c2
  {
    var key := CategoryKey(k1, c1);
    assert key[0] == k1[0] && key[0] == k2[0];
    assert IncomeKind[0] != ExpenseKind[0];
    assert k1 == k2;
    assert c1 == key[|k1| + 1..] == c2;
  }

  /** The key a group's total is stored under. */
  function GroupKey(g: Group): string {
    CategoryKey(g.kind, g.category)
  }

  /** The map the report loop builds over `groups`, each group's total stored under `key` of the group, later groups overwriting earlier ones. */
  function KeyedTotals<K>(groups: seq<Group>, key: Group -> K): map<K, int> {
    if groups == [] then map[]
    else
      var last := groups[|groups| - 1];
      KeyedTotals(groups[..|groups| - 1], key)[key(last) := last.total]
  }

  /** The report's `categories` for `groups`. */
  function Categories(groups: seq<Group>): map<string, int> {
    KeyedTotals(groups, GroupKey)
  }

  /** Pairwise distinct keys stay pairwise distinct on a prefix. */
  lemma DistinctOnPrefix<K>(groups: seq<Group>, key: Group -> K, n: int)
    requires 0 <= n <= |groups|
    requires forall i, j :: 0 <= i < j < |groups| ==> key(groups[i]) != key(groups[j])
    ensures forall i, j :: 0 <= i < j < n ==> key(groups[..n][i]) != key(groups[..n][j])
  {
    forall i, j | 0 <= i < j < n
      ensures key(groups[..n][i]) != key(groups[..n][j])
    {
      assert groups[..n][i] == groups[i] && groups[..n][j] == groups[j];
    }
  }

  /** When no two groups share a key, each group has an entry holding its total. */
  lemma {:induction false} KeyedTotalsOfGroups<K>(groups: seq<Group>, key: Group -> K)
    requires forall i, j :: 0 <= i < j < |groups| ==> key(groups[i]) != key(groups[j])
    ensures forall i :: 0 <= i < |groups| ==>
      key(groups[i]) in KeyedTotals(groups, key) && KeyedTotals(groups, key)[key(groups[i])] == groups[i].total
  {
    if groups != [] {
      var n := |groups| - 1;
      var init := groups[..n];
      DistinctOnPrefix(groups, key, n);
      KeyedTotalsOfGroups(init, key);
      forall i | 0 <= i < n
        ensures key(groups[i]) in KeyedTotals(groups, key) && KeyedTotals(groups, key)[key(groups[i])] == groups[i].total
      {
        assert init[i] == groups[i];
      }
    }
  }

  /** Every entry of the map is the key of some group. */
  lemma {:induction false} KeyedTotalsKeys<K>(groups: seq<Group>, key: Group -> K)
    ensures forall k :: k in KeyedTotals(groups, key) ==> exists i :: 0 <= i < |groups| && k == key(groups[i])
  {
    if groups != [] {
      var n := |groups| - 1;
      var init := groups[..n];
      KeyedTotalsKeys(init, key);
      forall k | k in KeyedTotals(groups, key)
        ensures exists i :: 0 <= i < |groups| && k == key(groups[i])
      {
        if k != key(groups[n]) {
          assert k in KeyedTotals(init, key);
          var i :| 0 <= i < n && k == key(init[i]);
          assert init[i] == groups[i];
        }
      }
    }
  }

  /** With the two admitted types, groups with distinct type and category have distinct `categories` keys. */
  lemma GroupKeysDistinct(groups: seq<Group>)
    requires DistinctKeys(groups)
    requires forall g :: g in groups ==> ValidKind(g.kind)
    ensures forall i, j :: 0 <= i < j < |groups| ==> GroupKey(groups[i]) != GroupKey(groups[j])
  {
    forall i, j | 0 <= i < j < |groups|
      ensures GroupKey(groups[i]) != GroupKey(groups[j])
    {
      assert groups[i] in groups && groups[j] in groups;
      if GroupKey(groups[i]) == GroupKey(groups[j]) {
        CategoryKeyInjective(groups[i].kind, groups[i].category, groups[j].kind, groups[j].category);
      }
    }
  }

  /** With distinct keys, looking a group's key up finds that group. */
  lemma {:induction false} KeyTotalOfMember(groups: seq<Group>, g: Group)
    requires DistinctKeys(groups) && g in groups
    ensures KeyTotal(groups, g.kind, g.category) == g.total
  {
    if groups[0] != g {
      assert g in groups[1..];
      assert DistinctKeys(groups[1..]);
      KeyTotalOfMember(groups[1..], g);
    }
  }

  /**
   * What the report's `categories` holds for a user's rows: every group of the query,
   * keyed by type and category, valued at the sum of that group's amounts, and nothing else.
   */
  lemma ReportCategories(mine: seq<Row>)
    requires forall x :: x in mine ==> ValidKind(x.kind)
    ensures forall g :: g in Grouped(mine) ==>
      GroupKey(g) in Categories(Grouped(mine)) && Categories(Grouped(mine))[GroupKey(g)] == KeySum(mine, g.kind, g.category)
    ensures forall k :: k in Categories(Grouped(mine)) ==> exists g :: g in Grouped(mine) && k == GroupKey(g)
  {
    var groups := Grouped(mine);
    GroupedKeys(mine);
    GroupKeysDistinct(groups);
    KeyedTotalsOfGroups(groups, GroupKey);
    KeyedTotalsKeys(groups, GroupKey);
    forall g | g in groups
      ensures GroupKey(g) in Categories(groups) && Categories(groups)[GroupKey(g)] == KeySum(mine, g.kind, g.category)
    {
      var i :| 0 <= i < |groups| && groups[i] == g;
      GroupedTotals(mine, g.kind, g.category);
      KeyTotalOfMember(groups, g);
    }
    forall k | k in Categories(groups)
      ensures exists g :: g in groups && k == GroupKey(g)
    {
      var i :| 0 <= i < |groups| && k == GroupKey(groups[i]);
      assert groups[i] in groups;
    }
  }

  /** One turn of the report loop: group `i` is added to the sums and to the map. */
  lemma ReportStep(groups: seq<Group>, i: int)
    requires 0 <= i < |groups|
    ensures GroupIncome(groups[..i + 1]) == GroupIncome(groups[..i]) + (if groups[i].kind == IncomeKind then groups[i].total else 0)
    ensures GroupExpense(groups[..i + 1]) == GroupExpense(groups[..i]) + (if groups[i].kind != IncomeKind then groups[i].total else 0)
    ensures Categories(groups[..i + 1]) == Categories(groups[..i])[GroupKey(groups[i]) := groups[i].total]
  {
    var g := groups[i];
    assert groups[..i + 1] == groups[..i] + [g];
    GroupSumsAppend(groups[..i], [g]);
    assert groups[..i + 1][..i] == groups[..i];
  }

  /** What `get_financial_report` returns. */
  datatype Report = Report(income: int, expense: int, balance: int, categories: map<string, int>)

  class FinanceManager {
    var rows: seq<Row>

    ghost predicate Valid()
      reads this
    {
      forall x :: x in rows ==> ValidKind(x.kind)
    }

    constructor()
      ensures Valid() && rows == []
    {
      rows := [];
    }

    /**
     * `add_transaction`: appends one row and reports success; a type other than
     * `income` or `expense` violates the table's check, the insert raises and nothing
     * is added (`ok` false).
     */
    method AddTransaction(userId: int, amount: int, category: string, description: string, kind: string) returns (ok: bool)
      requires Valid()
      modifies this
      ensures Valid()
      ensures ok <==> ValidKind(kind)
      ensures rows == if ok then old(rows) + [Row(userId, amount, category, description, kind)] else old(rows)
    {
      if !ValidKind(kind) {
        return false;
      }
      rows := rows + [Row(userId, amount, category, description, kind)];
      return true;
    }

    /**
     * `get_financial_report`: loops over the grouped query, adding each `income` group to
     * the income and every other group to the expense, and keying each group's total by
     * type and category.  `period` takes no part.
     */
    method GetFinancialReport(userId: int, period: string) returns (report: Report)
      ensures report.income == Income(RowsOf(rows, userId))
      ensures report.expense == Expense(RowsOf(rows, userId))
      ensures report.balance == report.income - report.expense
      ensures report.categories == Categories(Grouped(RowsOf(rows, userId)))
    {
      var mine := RowsOf(rows, userId);
      var groups := Grouped(mine);
      var income, expense := 0, 0;
      var categories: map<string, int> := map[];
      for i := 0 to |groups|
        invariant income == GroupIncome(groups[..i]) && expense == GroupExpense(groups[..i])
        invariant categories == Categories(groups[..i])
      {
        var g := groups[i];
        ReportStep(groups, i);
        if g.kind == IncomeKind {
          income := income + g.total;
        } else {
          expense := expense + g.total;
        }
        categories := categories[GroupKey(g) := g.total];
      }
      assert groups[..|groups|] == groups;
      GroupedSums(mine);
      report := Report(income, expense, income - expense, categories);
    }
  }

  /** A user with no transactions gets zero income, expense and balance, and no categories. */
  lemma NoTransactionsEmptyReport(rows: seq<Row>, userId: int)
    requires forall x :: x in rows ==> x.userId != userId
    ensures RowsOf(rows, userId) == []
    ensures Income(RowsOf(rows, userId)) == 0 && Expense(RowsOf(rows, userId)) == 0
    ensures Categories(Grouped(RowsOf(rows, userId))) == map[]
  {
  }
}
