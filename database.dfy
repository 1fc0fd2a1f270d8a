/**
 * The persistence layer: the `transacoes` and `usuarios` tables, the two
 * operations that write them and the read-only aggregate queries.
 */
module Database {
  import opened Wrappers
  import opened Dates

  type UserId = int

  /** The two `tipo` values the queries look for; the store accepts any string. */
  const Gasto: string := "gasto"
  const Receita: string := "receita"

  /** No row is both an expense and an income. */
  lemma KindsDiffer()
    ensures Receita != Gasto
  {
    assert Receita[0] != Gasto[0];
  }

  /** One row of `transacoes`. */
  datatype Transaction = Transaction(
    id: int,
    user: UserId,
    tipo: string,
    valor: real,
    categoria: string,
    data: Date)

  /** One row of a `GROUP BY` result: the grouping key and `SUM(valor)` of its rows. */
  datatype Group<K> = Group(key: K, total: real)

  /** Totals of the current month, as the pair `(receita, gasto)`. */
  datatype Totals = Totals(receita: real, gasto: real)

  // ---------------------------------------------------------------------------
  // Sequences: filters and sums

  predicate NoDup<T(==)>(s: seq<T>) {
    forall i, j :: 0 <= i < j < |s| ==> s[i] != s[j]
  }

  /** Taking the last row off an extended sequence gives the sequence back. */
  lemma DropLast(rows: seq<Transaction>, t: Transaction)
    ensures (rows + [t])[..|rows|] == rows && (rows + [t])[|rows|] == t
  {
  }

  lemma NoDupCons<T>(x: T, s: seq<T>)
    ensures NoDup([x] + s) <==> x !in s && NoDup(s)
  {
    var xs := [x] + s;
    if NoDup(xs) {
      forall j | 0 <= j < |s| ensures s[j] != x {
        assert xs[0] == x && xs[j + 1] == s[j];
      }
      forall i, j | 0 <= i < j < |s| ensures s[i] != s[j] {
        assert xs[i + 1] == s[i] && xs[j + 1] == s[j];
      }
    }
    if x !in s && NoDup(s) {
      forall i, j | 0 <= i < j < |xs| ensures xs[i] != xs[j] {
        assert xs[j] == s[j - 1];
        if i > 0 {
          assert xs[i] == s[i - 1];
        }
      }
    }
  }

  /** `SUM(valor)` over some rows. */
  function SumValor(rows: seq<Transaction>): real {
    if rows == [] then 0.0 else SumValor(rows[..|rows| - 1]) + rows[|rows| - 1].valor
  }

  lemma SumValorAppend(rows: seq<Transaction>, t: Transaction)
    ensures SumValor(rows + [t]) == SumValor(rows) + t.valor
  {
    DropLast(rows, t);
  }

  // ---------------------------------------------------------------------------
  // GROUP BY ... SUM(valor)

  function Keys<K>(gs: seq<Group<K>>): (ks: seq<K>)
    ensures |ks| == |gs|
    ensures forall i :: 0 <= i < |gs| ==> ks[i] == gs[i].key
  {
    if gs == [] then [] else [gs[0].key] + Keys(gs[1..])
  }

  /** `next((v for k2, v in gs if k2 == k), 0)`: the first group's total for `k`, or 0. */
  function Lookup<K(==,!new)>(gs: seq<Group<K>>, k: K): real {
    if gs == [] then 0.0
    else if gs[0].key == k then gs[0].total
    else Lookup(gs[1..], k)
  }

  /** `sum(v for k2, v in gs if k2 == k)`: the totals of every group for `k`. */
  function SumWhere<K(==,!new)>(gs: seq<Group<K>>, k: K): real {
    if gs == [] then 0.0
    else (if gs[0].key == k then gs[0].total else 0.0) + SumWhere(gs[1..], k)
  }

  /** Adds one row's value to the group of key `k`, opening a new group at the end if there is none. */
  function AddTo<K(==,!new)>(gs: seq<Group<K>>, k: K, v: real): (r: seq<Group<K>>)
    ensures forall x :: x in Keys(r) <==> x in Keys(gs) || x == k
    ensures NoDup(Keys(gs)) ==> NoDup(Keys(r))
    ensures forall x :: Lookup(r, x) == Lookup(gs, x) + (if x == k then v else 0.0)
  {
    if gs == [] then [Group(k, v)]
    else if gs[0].key == k then [Group(k, gs[0].total + v)] + gs[1..]
    else
      var rest := AddTo(gs[1..], k, v);
      assert Keys(gs) == [gs[0].key] + Keys(gs[1..]);
      assert Keys([gs[0]] + rest) == [gs[0].key] + Keys(rest);
      NoDupCons(gs[0].key, Keys(gs[1..]));
      NoDupCons(gs[0].key, Keys(rest));
      [gs[0]] + rest
  }

  /** Two groups of different keys: exactly those keys, each with its own total. */
  lemma TwoGroups<K(!new)>(g1: Group<K>, g2: Group<K>)
    requires g1.key != g2.key
    ensures Keys([g1, g2]) == [g1.key, g2.key]
    ensures Lookup([g1, g2], g1.key) == g1.total && Lookup([g1, g2], g2.key) == g2.total
  {
    assert [g1, g2][1..] == [g2];
  }

  /** The rows whose key is `k`, in their original order. */
  function Matching<K(==)>(rows: seq<Transaction>, key: Transaction -> K, k: K): (r: seq<Transaction>)
    ensures forall t :: t in r <==> t in rows && key(t) == k
    ensures (forall t :: t in rows ==> key(t) != k) ==> r == []
  {
    if rows == [] then []
    else
      var init, last := rows[..|rows| - 1], rows[|rows| - 1];
      assert rows == init + [last];
      Matching(init, key, k) + (if key(last) == k then [last] else [])
  }

  /** Groups the rows by `key`, one group per distinct key in order of first appearance. */
  function GroupBy<K(==,!new)>(rows: seq<Transaction>, key: Transaction -> K): seq<Group<K>> {
    if rows == [] then []
    else
      var last := rows[|rows| - 1];
      AddTo(GroupBy(rows[..|rows| - 1], key), key(last), last.valor)
  }

  /** One row more adds its value to the group of its key. */
  lemma GroupBySnoc<K(!new)>(rows: seq<Transaction>, t: Transaction, key: Transaction -> K)
    ensures GroupBy(rows + [t], key) == AddTo(GroupBy(rows, key), key(t), t.valor)
  {
    assert (rows + [t])[..|rows|] == rows;
  }

  /** Two rows of different keys form two groups, in the order of the rows. */
  lemma GroupByTwo<K(!new)>(t1: Transaction, t2: Transaction, key: Transaction -> K)
    requires key(t1) != key(t2)
    ensures GroupBy([t1, t2], key) == [Group(key(t1), t1.valor), Group(key(t2), t2.valor)]
  {
    var g1 := Group(key(t1), t1.valor);
    GroupBySnoc([], t1, key);
    assert [] + [t1] == [t1];
    GroupBySnoc([t1], t2, key);
    assert [t1] + [t2] == [t1, t2];
    assert [g1][1..] == [];
  }

  /**
   * The grouping query: one group per distinct key of the rows and none other,
   * each holding the sum of exactly the rows with that key; no rows, no groups.
   */
  lemma {:induction false} GroupBySpec<K(!new)>(rows: seq<Transaction>, key: Transaction -> K)
    ensures NoDup(Keys(GroupBy(rows, key)))
    ensures forall x :: x in Keys(GroupBy(rows, key)) <==> exists t :: t in rows && key(t) == x
    ensures forall x :: Lookup(GroupBy(rows, key), x) == SumValor(Matching(rows, key, x))
    ensures GroupBy(rows, key) == [] <==> rows == []
  {
    if rows != [] {
      var init, last := rows[..|rows| - 1], rows[|rows| - 1];
      assert rows == init + [last];
      GroupBySpec(init, key);
      var gs := GroupBy(rows, key);
      assert key(last) in Keys(gs);
      assert gs == AddTo(GroupBy(init, key), key(last), last.valor);
      forall x
        ensures Lookup(gs, x) == SumValor(Matching(rows, key, x))
      {
        MatchingAppend(init, last, key, x);
        if key(last) == x {
          SumValorAppend(Matching(init, key, x), last);
        } else {
          assert Matching(rows, key, x) == Matching(init, key, x);
        }
      }
      forall x | x in Keys(gs)
        ensures exists t :: t in rows && key(t) == x
      {
        if x != key(last) {
          var t :| t in init && key(t) == x;
          assert t in rows;
        }
      }
    }
  }

  /** A key that no group has sums to 0. */
  lemma {:induction false} SumWhereAbsent<K(!new)>(gs: seq<Group<K>>, k: K)
    requires k !in Keys(gs)
    ensures SumWhere(gs, k) == 0.0
  {
    if gs != [] {
      assert Keys(gs[1..]) == Keys(gs)[1..];
      SumWhereAbsent(gs[1..], k);
    }
  }

  /** With one group per key, summing the groups of a key and taking the first one agree. */
  lemma {:induction false} SumWhereIsLookup<K(!new)>(gs: seq<Group<K>>, k: K)
    requires NoDup(Keys(gs))
    ensures SumWhere(gs, k) == Lookup(gs, k)
  {
    if gs != [] {
      assert Keys(gs[1..]) == Keys(gs)[1..];
      if gs[0].key == k {
        SumWhereAbsent(gs[1..], k);
      } else {
        SumWhereIsLookup(gs[1..], k);
      }
    }
  }

  // ---------------------------------------------------------------------------
  // Row selections and keys used by the queries

  function TipoKey(t: Transaction): string {
    t.tipo
  }

  function CategoryKey(t: Transaction): (string, string) {
    (t.tipo, t.categoria)
  }

  /** `filter(user_id == u)`. */
  function OfUser(rows: seq<Transaction>, u: UserId): (r: seq<Transaction>)
    ensures forall t :: t in r <==> t in rows && t.user == u
    ensures (forall t :: t in rows ==> t.user != u) ==> r == []
  {
    if rows == [] then []
    else
      var init, last := rows[..|rows| - 1], rows[|rows| - 1];
      assert rows == init + [last];
      OfUser(init, u) + (if last.user == u then [last] else [])
  }

  /** `filter(data >= start)`. */
  function Since(rows: seq<Transaction>, start: Date): (r: seq<Transaction>)
    ensures forall t :: t in r <==> t in rows && OnOrAfter(t.data, start)
    ensures (forall t :: t in rows ==> !OnOrAfter(t.data, start)) ==> r == []
  {
    if rows == [] then []
    else
      var init, last := rows[..|rows| - 1], rows[|rows| - 1];
      assert rows == init + [last];
      Since(init, start) + (if OnOrAfter(last.data, start) then [last] else [])
  }

  /** `filter(strftime('%Y-%m', data) == strftime('%Y-%m', today))`. */
  function InMonthOf(rows: seq<Transaction>, today: Date): (r: seq<Transaction>)
    ensures forall t :: t in r <==> t in rows && SameMonth(t.data, today)
  {
    if rows == [] then []
    else
      var init, last := rows[..|rows| - 1], rows[|rows| - 1];
      assert rows == init + [last];
      InMonthOf(init, today) + (if SameMonth(last.data, today) then [last] else [])
  }

  lemma MatchingAppend<K>(rows: seq<Transaction>, t: Transaction, key: Transaction -> K, k: K)
    ensures Matching(rows + [t], key, k) == Matching(rows, key, k) + (if key(t) == k then [t] else [])
  {
    DropLast(rows, t);
  }

  lemma OfUserAppend(rows: seq<Transaction>, t: Transaction, u: UserId)
    ensures OfUser(rows + [t], u) == OfUser(rows, u) + (if t.user == u then [t] else [])
  {
    DropLast(rows, t);
  }

  lemma SinceAppend(rows: seq<Transaction>, t: Transaction, start: Date)
    ensures Since(rows + [t], start) == Since(rows, start) + (if OnOrAfter(t.data, start) then [t] else [])
  {
    DropLast(rows, t);
  }

  lemma InMonthOfAppend(rows: seq<Transaction>, t: Transaction, today: Date)
    ensures InMonthOf(rows + [t], today) == InMonthOf(rows, today) + (if SameMonth(t.data, today) then [t] else [])
  {
    DropLast(rows, t);
  }

  lemma KindTotalAppend(rows: seq<Transaction>, t: Transaction, tipo: string)
    ensures KindTotal(rows + [t], tipo) == KindTotal(rows, tipo) + (if t.tipo == tipo then t.valor else 0.0)
  {
    MatchingAppend(rows, t, TipoKey, tipo);
    if t.tipo == tipo {
      SumValorAppend(Matching(rows, TipoKey, tipo), t);
    } else {
      assert Matching(rows + [t], TipoKey, tipo) == Matching(rows, TipoKey, tipo);
    }
  }

  /** The sum of the rows of one `tipo`: the reference the grouped queries are checked against. */
  function KindTotal(rows: seq<Transaction>, tipo: string): real {
    SumValor(Matching(rows, TipoKey, tipo))
  }

  // ---------------------------------------------------------------------------
  // The queries

  /** `obter_resumo`: the user's rows of the last seven days, grouped by `(tipo, categoria)`. */
  function Summary(rows: seq<Transaction>, u: UserId, today: Date): seq<Group<(string, string)>>
    requires IsValid(today)
  {
    GroupBy(Since(OfUser(rows, u), MinusDays(today, 7)), CategoryKey)
  }

  /** `obter_saldo`: the user's rows grouped by `tipo`, income groups minus expense groups. */
  function Balance(rows: seq<Transaction>, u: UserId): real {
    var gs := GroupBy(OfUser(rows, u), TipoKey);
    SumWhere(gs, Receita) - SumWhere(gs, Gasto)
  }

  /** `obter_totais_mes_atual`: the user's rows of this month grouped by `tipo`, each total or 0. */
  function MonthTotals(rows: seq<Transaction>, u: UserId, today: Date): Totals {
    var gs := GroupBy(InMonthOf(OfUser(rows, u), today), TipoKey);
    Totals(Lookup(gs, Receita), Lookup(gs, Gasto))
  }

  /** Each row is dated on or after the next one. */
  predicate NewestFirst(rows: seq<Transaction>) {
    forall i :: 0 < i < |rows| ==> OnOrAfter(rows[i - 1].data, rows[i].data)
  }

  /** Places `t` before the first row that is not newer than it. */
  function InsertByDate(t: Transaction, rows: seq<Transaction>): (r: seq<Transaction>)
    requires NewestFirst(rows)
    ensures NewestFirst(r)
    ensures multiset(r) == multiset(rows) + multiset{t}
    ensures r[0] == t || (rows != [] && r[0] == rows[0])
  {
    if rows == [] || OnOrAfter(t.data, rows[0].data) then [t] + rows
    else
      assert rows == [rows[0]] + rows[1..];
      [rows[0]] + InsertByDate(t, rows[1..])
  }

  /** `ORDER BY data DESC`: the same rows, newest first. */
  function SortByDateDesc(rows: seq<Transaction>): (r: seq<Transaction>)
    ensures NewestFirst(r)
    ensures multiset(r) == multiset(rows)
  {
    if rows == [] then []
    else
      assert rows == [rows[0]] + rows[1..];
      InsertByDate(rows[0], SortByDateDesc(rows[1..]))
  }

  /** In a newest-first sequence every row is dated on or after every later row. */
  lemma {:induction false} NewestFirstOrdersAllPairs(rows: seq<Transaction>, i: int, j: int)
    requires NewestFirst(rows) && 0 <= i < j < |rows|
    ensures OnOrAfter(rows[i].data, rows[j].data)
  {
    if i + 1 < j {
      NewestFirstOrdersAllPairs(rows, i, j - 1);
    }
  }

  /**
   * `exportar_transacoes` (row selection and order): nothing when the user has no
   * rows, otherwise exactly the user's rows, each as often as stored, newest first.
   */
  function Export(rows: seq<Transaction>, u: UserId): (r: Option<seq<Transaction>>)
    ensures r.None? <==> forall t :: t in rows ==> t.user != u
    ensures r.Some? ==> NewestFirst(r.value) && multiset(r.value) == multiset(OfUser(rows, u))
    ensures r.Some? ==> forall t :: t in r.value <==> t in rows && t.user == u
    ensures r.Some? ==> |r.value| == |OfUser(rows, u)|
  {
    var mine := OfUser(rows, u);
    if mine == [] then None
    else
      var sorted := SortByDateDesc(mine);
      assert mine[0] in mine;
      assert forall t :: t in sorted <==> t in multiset(mine);
      Some(sorted)
  }

  // ---------------------------------------------------------------------------
  // Properties of the queries

  /** The balance is the user's income rows minus the user's expense rows. */
  lemma BalanceIsKindTotals(rows: seq<Transaction>, u: UserId)
    ensures Balance(rows, u) == KindTotal(OfUser(rows, u), Receita) - KindTotal(OfUser(rows, u), Gasto)
  {
    GroupBySpec(OfUser(rows, u), TipoKey);
    SumWhereIsLookup(GroupBy(OfUser(rows, u), TipoKey), Receita);
    SumWhereIsLookup(GroupBy(OfUser(rows, u), TipoKey), Gasto);
  }

  /** A user with no rows has balance 0. */
  lemma BalanceWithoutRows(rows: seq<Transaction>, u: UserId)
    requires forall t :: t in rows ==> t.user != u
    ensures Balance(rows, u) == 0.0
  {
    BalanceIsKindTotals(rows, u);
  }

  /**
   * One more row moves the balance of its owner by `+valor` for `receita`, by
   * `-valor` for `gasto`, and not at all for any other `tipo`; it never moves
   * the balance of another user.
   */
  lemma BalanceAfterInsert(rows: seq<Transaction>, t: Transaction, u: UserId)
    ensures Balance(rows + [t], u) ==
      Balance(rows, u) +
      (if t.user != u then 0.0
       else if t.tipo == Receita then t.valor
       else if t.tipo == Gasto then -t.valor
       else 0.0)
  {
    BalanceIsKindTotals(rows, u);
    BalanceIsKindTotals(rows + [t], u);
    OfUserAppend(rows, t, u);
    var mine := OfUser(rows, u);
    if t.user == u {
      assert OfUser(rows + [t], u) == mine + [t];
      KindTotalAppend(mine, t, Receita);
      KindTotalAppend(mine, t, Gasto);
      KindsDiffer();
    } else {
      assert OfUser(rows + [t], u) == mine;
    }
  }

  /** The month totals are the sums of the user's rows of this month, per `tipo`. */
  lemma MonthTotalsAreSums(rows: seq<Transaction>, u: UserId, today: Date)
    ensures MonthTotals(rows, u, today) ==
      Totals(KindTotal(InMonthOf(OfUser(rows, u), today), Receita),
             KindTotal(InMonthOf(OfUser(rows, u), today), Gasto))
  {
    GroupBySpec(InMonthOf(OfUser(rows, u), today), TipoKey);
  }

  /** A `tipo` with no row of the user in this month totals 0. */
  lemma MonthTotalsWithoutRows(rows: seq<Transaction>, u: UserId, today: Date, tipo: string)
    requires forall t :: t in rows && t.user == u && SameMonth(t.data, today) ==> t.tipo != tipo
    ensures tipo == Receita ==> MonthTotals(rows, u, today).receita == 0.0
    ensures tipo == Gasto ==> MonthTotals(rows, u, today).gasto == 0.0
  {
    MonthTotalsAreSums(rows, u, today);
  }

  /**
   * A row of this month adds its value to its owner's total of its `tipo` and
   * leaves the other total, and every total of other users, as it was.
   */
  lemma MonthTotalsAfterInsert(rows: seq<Transaction>, t: Transaction, u: UserId, today: Date)
    ensures MonthTotals(rows + [t], u, today).receita == MonthTotals(rows, u, today).receita +
      (if t.user == u && SameMonth(t.data, today) && t.tipo == Receita then t.valor else 0.0)
    ensures MonthTotals(rows + [t], u, today).gasto == MonthTotals(rows, u, today).gasto +
      (if t.user == u && SameMonth(t.data, today) && t.tipo == Gasto then t.valor else 0.0)
  {
    MonthTotalsAreSums(rows, u, today);
    MonthTotalsAreSums(rows + [t], u, today);
    var month := InMonthOf(OfUser(rows, u), today);
    var month' := InMonthOf(OfUser(rows + [t], u), today);
    MonthRowsAfterInsert(rows, t, u, today);
    if t.user == u && SameMonth(t.data, today) {
      assert month' == month + [t];
      KindTotalAppend(month, t, Receita);
      KindTotalAppend(month, t, Gasto);
      KindsDiffer();
    } else {
      assert month' == month;
    }
  }

  /** The rows of this month of user `u` gain `t` exactly when `t` is such a row. */
  lemma MonthRowsAfterInsert(rows: seq<Transaction>, t: Transaction, u: UserId, today: Date)
    ensures InMonthOf(OfUser(rows + [t], u), today) ==
      InMonthOf(OfUser(rows, u), today) + (if t.user == u && SameMonth(t.data, today) then [t] else [])
  {
    OfUserAppend(rows, t, u);
    var mine := OfUser(rows, u);
    if t.user == u {
      assert OfUser(rows + [t], u) == mine + [t];
      InMonthOfAppend(mine, t, today);
    } else {
      assert OfUser(rows + [t], u) == mine;
    }
  }

  /** The seven-day window: rows of the user dated on or after `today - 7`. */
  predicate InSummaryWindow(t: Transaction, u: UserId, today: Date)
    requires IsValid(today)
  {
    t.user == u && OnOrAfter(t.data, MinusDays(today, 7))
  }

  /**
   * The summary has one entry per distinct `(tipo, categoria)` of the user's rows
   * in the window, each the sum of exactly those rows, and is empty exactly when
   * no row of the user lies in the window.
   */
  lemma SummarySpec(rows: seq<Transaction>, u: UserId, today: Date)
    requires IsValid(today)
    ensures NoDup(Keys(Summary(rows, u, today)))
    ensures forall k :: k in Keys(Summary(rows, u, today)) <==>
      exists t :: t in rows && InSummaryWindow(t, u, today) && CategoryKey(t) == k
    ensures forall k ::
      Lookup(Summary(rows, u, today), k) == SumValor(Matching(Since(OfUser(rows, u), MinusDays(today, 7)), CategoryKey, k))
    ensures Summary(rows, u, today) == [] <==> forall t :: t in rows ==> !InSummaryWindow(t, u, today)
  {
    var window := Since(OfUser(rows, u), MinusDays(today, 7));
    GroupBySpec(window, CategoryKey);
    assert forall t :: t in window <==> t in rows && InSummaryWindow(t, u, today);
    if !forall t :: t in rows ==> !InSummaryWindow(t, u, today) {
      var t :| t in rows && InSummaryWindow(t, u, today);
      assert t in window;
    }
  }

  /**
   * Where the window starts: a row of the user dated `k` days ago is counted in
   * the summary exactly when `k <= 7`; a row outside the window changes nothing.
   */
  lemma SummaryWindowBoundary(rows: seq<Transaction>, t: Transaction, today: Date, k: nat)
    requires IsValid(today) && t.data == MinusDays(today, k)
    ensures k <= 7 ==> CategoryKey(t) in Keys(Summary(rows + [t], t.user, today))
    ensures k > 7 ==> Summary(rows + [t], t.user, today) == Summary(rows, t.user, today)
  {
    var u, start := t.user, MinusDays(today, 7);
    MinusDaysOnOrAfter(today, k, 7);
    OfUserAppend(rows, t, u);
    var mine := OfUser(rows, u);
    assert OfUser(rows + [t], u) == mine + [t];
    SinceAppend(mine, t, start);
    if k <= 7 {
      SummarySpec(rows + [t], u, today);
      assert InSummaryWindow(t, u, today);
    } else {
      assert Since(mine + [t], start) == Since(mine, start);
    }
  }

  /**
   * A worked run: an expense of 25 and then an income of 100, both today. The
   * balance goes 0, -25, 75.
   */
  lemma ExpenseThenIncomeBalance(u: UserId, t1: Transaction, t2: Transaction)
    requires t1.user == u && t1.tipo == Gasto && t1.valor == 25.0
    requires t2.user == u && t2.tipo == Receita && t2.valor == 100.0
    ensures Balance([], u) == 0.0
    ensures Balance([t1], u) == -25.0
    ensures Balance([t1, t2], u) == 75.0
  {
    TwoRows(t1, t2);
    BalanceWithoutRows([], u);
    BalanceOneMore([], t1, u, [t1]);
    BalanceOneMore([t1], t2, u, [t1, t2]);
  }

  /** The run's row lists, built one row at a time. */
  lemma TwoRows(t1: Transaction, t2: Transaction)
    ensures [] + [t1] == [t1] && [t1] + [t2] == [t1, t2]
  {
  }

  /** One own row more: the balance rises by an income and falls by an expense. */
  lemma BalanceOneMore(rows: seq<Transaction>, t: Transaction, u: UserId, longer: seq<Transaction>)
    requires longer == rows + [t]
    ensures t.user == u && t.tipo == Receita ==> Balance(longer, u) == Balance(rows, u) + t.valor
    ensures t.user == u && t.tipo == Gasto ==> Balance(longer, u) == Balance(rows, u) - t.valor
  {
    BalanceAfterInsert(rows, t, u);
    BalanceStep(Balance(rows, u), Balance(longer, u), t, u);
  }

  /** A balance that moved as `BalanceAfterInsert` says: up by an own income, down by an own expense. */
  lemma BalanceStep(before: real, after: real, t: Transaction, u: UserId)
    requires after == before +
      (if t.user != u then 0.0
       else if t.tipo == Receita then t.valor
       else if t.tipo == Gasto then -t.valor
       else 0.0)
    ensures t.user == u && t.tipo == Receita ==> after == before + t.valor
    ensures t.user == u && t.tipo == Gasto ==> after == before - t.valor
  {
    KindsDiffer();
  }

  /** Both rows of that run are the user's and fall inside the seven-day window. */
  lemma ExpenseThenIncomeWindow(u: UserId, today: Date, t1: Transaction, t2: Transaction)
    requires IsValid(today) && t1.data == today && t2.data == today
    requires t1.user == u && t2.user == u
    ensures Since(OfUser([t1, t2], u), MinusDays(today, 7)) == [t1, t2]
  {
    var rows := [t1, t2];
    assert rows == [t1] + [t2];
    MinusDaysOnOrAfter(today, 0, 7);
    var start := MinusDays(today, 7);
    assert OnOrAfter(t1.data, start) && OnOrAfter(t2.data, start);
    OfUserAppend([t1], t2, u);
    OfUserAppend([], t1, u);
    assert [] + [t1] == [t1];
    assert OfUser(rows, u) == rows;
    SinceAppend([t1], t2, start);
    SinceAppend([], t1, start);
  }

  /**
   * The same run seen by the seven-day summary: one group per row, in the order
   * of the rows, since their `(tipo, categoria)` differ.
   */
  lemma ExpenseThenIncomeGroups(u: UserId, today: Date, t1: Transaction, t2: Transaction)
    requires IsValid(today) && t1.data == today && t2.data == today
    requires t1.user == u && t1.tipo == Gasto && t1.valor == 25.0 && t1.categoria == "mercado"
    requires t2.user == u && t2.tipo == Receita && t2.valor == 100.0 && t2.categoria == "salario"
    ensures Summary([t1, t2], u, today) == [Group((Gasto, "mercado"), 25.0), Group((Receita, "salario"), 100.0)]
  {
    ExpenseThenIncomeWindow(u, today, t1, t2);
    assert CategoryKey(t1) != CategoryKey(t2) by { KindsDiffer(); }
    GroupByTwo(t1, t2, CategoryKey);
  }

  /** So the summary has groups for exactly the keys `(gasto, mercado)` and `(receita, salario)`, holding 25 and 100. */
  lemma ExpenseThenIncomeSummary(u: UserId, today: Date, t1: Transaction, t2: Transaction)
    requires IsValid(today) && t1.data == today && t2.data == today
    requires t1.user == u && t1.tipo == Gasto && t1.valor == 25.0 && t1.categoria == "mercado"
    requires t2.user == u && t2.tipo == Receita && t2.valor == 100.0 && t2.categoria == "salario"
    ensures forall k :: k in Keys(Summary([t1, t2], u, today)) <==> k == (Gasto, "mercado") || k == (Receita, "salario")
    ensures Lookup(Summary([t1, t2], u, today), (Gasto, "mercado")) == 25.0
    ensures Lookup(Summary([t1, t2], u, today), (Receita, "salario")) == 100.0
  {
    ExpenseThenIncomeGroups(u, today, t1, t2);
    assert (Gasto, "mercado") != (Receita, "salario") by { KindsDiffer(); }
    TwoGroups(Group((Gasto, "mercado"), 25.0), Group((Receita, "salario"), 100.0));
  }

  // ---------------------------------------------------------------------------
  // The registry of users

  /** The `usuarios` table after `registrar_usuario(u)`: `u` is appended unless it is already there. */
  function WithUser(users: seq<UserId>, u: UserId): (r: seq<UserId>)
    ensures forall x :: x in r <==> x in users || x == u
    ensures NoDup(users) ==> NoDup(r)
    ensures u in users ==> r == users
    ensures u !in users ==> |r| == |users| + 1
  {
    if u in users then users else users + [u]
  }

  /** Registering twice is registering once. */
  lemma WithUserIdempotent(users: seq<UserId>, u: UserId)
    ensures WithUser(WithUser(users, u), u) == WithUser(users, u)
  {
  }

  /** The two tables. `nextId` is the id the next inserted row receives. */
  class Store {
    var rows: seq<Transaction>
    var users: seq<UserId>
    var nextId: int

    /** Every user id once; row ids increasing in insertion order and below `nextId`. */
    ghost predicate Valid()
      reads this
    {
      && NoDup(users)
      && (forall i, j :: 0 <= i < j < |rows| ==> rows[i].id < rows[j].id)
      && (forall i :: 0 <= i < |rows| ==> rows[i].id < nextId)
    }

    /** Every stored row belongs to a registered user. */
    ghost predicate Owned()
      reads this
    {
      forall t :: t in rows ==> t.user in users
    }

    constructor ()
      ensures Valid()
      ensures Owned()
      ensures rows == [] && users == [] && nextId == 1
    {
      rows, users, nextId := [], [], 1;
    }

    /** `adicionar_transacao`: one new row, dated `today`, with a fresh id; nothing else changes. */
    method AddTransaction(user: UserId, tipo: string, valor: real, categoria: string, today: Date)
      requires Valid()
      modifies this
      ensures Valid()
      ensures rows == old(rows) + [Transaction(old(nextId), user, tipo, valor, categoria, today)]
      ensures forall t :: t in old(rows) ==> t.id != old(nextId)
      ensures users == old(users) && nextId == old(nextId) + 1
    {
      rows := rows + [Transaction(nextId, user, tipo, valor, categoria, today)];
      nextId := nextId + 1;
    }

    /** `registrar_usuario`: inserts `user` only if the table does not hold it yet. */
    method RegisterUser(user: UserId)
      requires Valid()
      modifies this
      ensures Valid()
      ensures users == WithUser(old(users), user)
      ensures rows == old(rows) && nextId == old(nextId)
    {
      if user !in users {
        users := users + [user];
      }
    }

    /** `listar_usuarios`: every registered id, each once. */
    function ListUsers(): (ids: seq<UserId>)
      reads this
      requires Valid()
      ensures NoDup(ids)
      ensures forall u :: u in ids <==> u in users
    {
      users
    }
  }
}
