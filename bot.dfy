/**
 * The chat commands and the two scheduled broadcasts, reduced to what they
 * store and which kind of reply they send. Every command first registers its
 * caller.
 */
module Bot {
  import opened Wrappers
  import opened Dates
  import opened Text
  import opened Database

  /** The colour shown next to a balance. */
  datatype Indicator = Green | Red

  /** The symbol shown on a summary line. */
  datatype Emoji = ExpenseEmoji | IncomeEmoji

  /** One line of a seven-day summary: its symbol, `tipo`, `categoria` and total. */
  datatype SummaryLine = SummaryLine(emoji: Emoji, tipo: string, categoria: string, total: real)

  /** What a reply says, without its wording. */
  datatype Reply =
    | Welcome
    | UsageHint
    | InvalidValue
    | Recorded(tipo: string, valor: real, categoria: string)
    | BudgetAlert
    | NoTransactions
    | WeekReport(lines: seq<SummaryLine>)
    | BalanceReport(indicator: Indicator, saldo: real)
    | NothingToExport
    | Spreadsheet(rows: seq<Transaction>)
    | DashboardLink(user: UserId)
    | WeeklyDigest(digest: seq<SummaryLine>)
    | MonthStartBalance(colour: Indicator, amount: real)

  /** A message that a scheduled job pushes to one chat. */
  datatype Message = Message(chat: UserId, reply: Reply)

  // ---------------------------------------------------------------------------
  // Decisions

  /** The budget alert: there is income this month and spending has reached 80% of it. */
  function AlertFires(totals: Totals): (r: bool)
    ensures r ==> totals.receita > 0.0
    ensures totals.receita > 0.0 ==> (r <==> totals.gasto / totals.receita >= 0.8)
  {
    totals.receita > 0.0 && totals.gasto >= totals.receita * 0.8
  }

  /** This month's totals once a row of `tipo` and `valor` dated today is added. */
  function AfterInsert(before: Totals, tipo: string, valor: real): Totals {
    Totals(before.receita + (if tipo == Receita then valor else 0.0),
           before.gasto + (if tipo == Gasto then valor else 0.0))
  }

  /** The replies that follow the confirmation: the budget alert when the totals call for it. */
  function AlertReplies(totals: Totals): seq<Reply> {
    if AlertFires(totals) then [BudgetAlert] else []
  }

  /**
   * The month totals once a row of `user` dated `today` is stored: the old
   * totals with the row's value added to its own `tipo`.
   */
  lemma MonthTotalsWithNewRow(rows: seq<Transaction>, row: Transaction, user: UserId, today: Date)
    requires row.user == user && row.data == today
    ensures MonthTotals(rows + [row], user, today) == AfterInsert(MonthTotals(rows, user, today), row.tipo, row.valor)
  {
    assert SameMonth(row.data, today);
    MonthTotalsAfterInsert(rows, row, user, today);
    AfterInsertFromFields(MonthTotals(rows, user, today), MonthTotals(rows + [row], user, today), row.tipo, row.valor);
  }

  /** Totals that grew field by field as a row of `tipo` and `valor` says are that row's `AfterInsert`. */
  lemma AfterInsertFromFields(before: Totals, after: Totals, tipo: string, valor: real)
    requires after.receita == before.receita + (if tipo == Receita then valor else 0.0)
    requires after.gasto == before.gasto + (if tipo == Gasto then valor else 0.0)
    ensures after == AfterInsert(before, tipo, valor)
  {
  }

  /** Green for a balance that is not negative, red otherwise. */
  function IndicatorFor(saldo: real): (r: Indicator)
    ensures r == Green <==> saldo >= 0.0
  {
    if saldo >= 0.0 then Green else Red
  }

  /** The expense symbol for `tipo == "gasto"`, the income symbol for every other `tipo`. */
  function EmojiFor(tipo: string): (r: Emoji)
    ensures r == ExpenseEmoji <==> tipo == Gasto
  {
    if tipo == Gasto then ExpenseEmoji else IncomeEmoji
  }

  function LineFor(g: Group<(string, string)>): SummaryLine {
    SummaryLine(EmojiFor(g.key.0), g.key.0, g.key.1, g.total)
  }

  /** The lines of a summary message: one per group, in the groups' order. */
  function Report(groups: seq<Group<(string, string)>>): (lines: seq<SummaryLine>)
    ensures |lines| == |groups|
    ensures forall i :: 0 <= i < |groups| ==> lines[i] == LineFor(groups[i])
  {
    if groups == [] then [] else Report(groups[..|groups| - 1]) + [LineFor(groups[|groups| - 1])]
  }

  /** The loop that appends one line per group to the message. */
  method SummaryLines(groups: seq<Group<(string, string)>>) returns (lines: seq<SummaryLine>)
    ensures lines == Report(groups)
  {
    lines := [];
    for i := 0 to |groups|
      invariant lines == Report(groups[..i])
    {
      assert groups[..i + 1][..i] == groups[..i];
      lines := lines + [LineFor(groups[i])];
    }
    assert groups[..|groups|] == groups;
  }

  // ---------------------------------------------------------------------------
  // Commands

  /** `/iniciar`: registers the caller and sends the usage text. */
  method Start(store: Store, user: UserId) returns (replies: seq<Reply>)
    requires store.Valid() && store.Owned()
    modifies store
    ensures store.Valid() && store.Owned()
    ensures store.users == WithUser(old(store.users), user)
    ensures store.rows == old(store.rows) && store.nextId == old(store.nextId)
    ensures replies == [Welcome]
  {
    store.RegisterUser(user);
    replies := [Welcome];
  }

  /**
   * `/registrar tipo valor categoria`: without exactly three arguments, the usage
   * hint; with an amount that does not parse, the invalid-value reply; otherwise
   * one row with `tipo` and `categoria` lower-cased, the confirmation, and the
   * budget alert when this month's totals, this row included, call for it.
   */
  method Register(store: Store, user: UserId, args: seq<string>, parse: string -> Option<real>, today: Date)
    returns (replies: seq<Reply>)
    requires store.Valid() && store.Owned()
    modifies store
    ensures store.Valid() && store.Owned()
    ensures store.users == WithUser(old(store.users), user)
    ensures |args| != 3 ==> replies == [UsageHint] && store.rows == old(store.rows) && store.nextId == old(store.nextId)
    ensures |args| == 3 && parse(args[1]).None? ==>
      replies == [InvalidValue] && store.rows == old(store.rows) && store.nextId == old(store.nextId)
    ensures |args| == 3 && parse(args[1]).Some? ==> store.nextId == old(store.nextId) + 1
    ensures |args| == 3 && parse(args[1]).Some? ==>
      store.rows == old(store.rows) + [Transaction(old(store.nextId), user, Lower(args[0]), parse(args[1]).value, Lower(args[2]), today)]
    ensures |args| == 3 && parse(args[1]).Some? ==>
      replies == [Recorded(args[0], parse(args[1]).value, args[2])] +
        AlertReplies(AfterInsert(MonthTotals(old(store.rows), user, today), Lower(args[0]), parse(args[1]).value))
  {
    store.RegisterUser(user);
    if |args| != 3 {
      replies := [UsageHint];
      return;
    }
    var parsed := parse(args[1]);
    if parsed.None? {
      replies := [InvalidValue];
      return;
    }
    replies := Record(store, user, args[0], parsed.value, args[2], today);
  }

  /**
   * The insert path of `/registrar`: stores the row with `tipo` and `categoria`
   * lower-cased, confirms it with the words as typed, and adds the budget alert
   * when this month's totals, the new row included, call for it.
   */
  method Record(store: Store, user: UserId, tipo: string, valor: real, categoria: string, today: Date)
    returns (replies: seq<Reply>)
    requires store.Valid() && store.Owned() && user in store.users
    modifies store
    ensures store.Valid() && store.Owned()
    ensures store.users == old(store.users) && store.nextId == old(store.nextId) + 1
    ensures store.rows == old(store.rows) + [Transaction(old(store.nextId), user, Lower(tipo), valor, Lower(categoria), today)]
    ensures replies == [Recorded(tipo, valor, categoria)] +
      AlertReplies(AfterInsert(MonthTotals(old(store.rows), user, today), Lower(tipo), valor))
  {
    ghost var before := store.rows;
    store.AddTransaction(user, Lower(tipo), valor, Lower(categoria), today);
    MonthTotalsWithNewRow(before, store.rows[|store.rows| - 1], user, today);
    var totals := MonthTotals(store.rows, user, today);
    replies := [Recorded(tipo, valor, categoria)] + AlertReplies(totals);
  }

  /**
   * `/resumo`: the seven-day summary, one line per `(tipo, categoria)`, or the
   * no-transactions reply exactly when the caller has no row in the window.
   */
  method Summarize(store: Store, user: UserId, today: Date) returns (replies: seq<Reply>)
    requires store.Valid() && store.Owned() && IsValid(today)
    modifies store
    ensures store.Valid() && store.Owned()
    ensures store.users == WithUser(old(store.users), user)
    ensures store.rows == old(store.rows) && store.nextId == old(store.nextId)
    ensures var groups := Summary(old(store.rows), user, today);
      replies == if groups == [] then [NoTransactions] else [WeekReport(Report(groups))]
    ensures replies == [NoTransactions] <==> forall t :: t in old(store.rows) ==> !InSummaryWindow(t, user, today)
  {
    store.RegisterUser(user);
    var groups := Summary(store.rows, user, today);
    SummarySpec(store.rows, user, today);
    if groups == [] {
      replies := [NoTransactions];
      return;
    }
    var lines := SummaryLines(groups);
    replies := [WeekReport(lines)];
  }

  /** `/saldo`: the all-time balance and its colour. */
  method ShowBalance(store: Store, user: UserId) returns (replies: seq<Reply>)
    requires store.Valid() && store.Owned()
    modifies store
    ensures store.Valid() && store.Owned()
    ensures store.users == WithUser(old(store.users), user)
    ensures store.rows == old(store.rows) && store.nextId == old(store.nextId)
    ensures var saldo := Balance(old(store.rows), user);
      replies == [BalanceReport(IndicatorFor(saldo), saldo)]
  {
    store.RegisterUser(user);
    var saldo := Balance(store.rows, user);
    replies := [BalanceReport(IndicatorFor(saldo), saldo)];
  }

  /** `/planilha`: the caller's rows newest first, or the nothing-to-export reply when there are none. */
  method ExportSheet(store: Store, user: UserId) returns (replies: seq<Reply>)
    requires store.Valid() && store.Owned()
    modifies store
    ensures store.Valid() && store.Owned()
    ensures store.users == WithUser(old(store.users), user)
    ensures store.rows == old(store.rows) && store.nextId == old(store.nextId)
    ensures match Export(old(store.rows), user)
      case None => replies == [NothingToExport]
      case Some(rows) => replies == [Spreadsheet(rows)]
  {
    store.RegisterUser(user);
    var exported := Export(store.rows, user);
    if exported.None? {
      replies := [NothingToExport];
      return;
    }
    replies := [Spreadsheet(exported.value)];
  }

  /** `/painel`: the link to the caller's dashboard. */
  method Dashboard(store: Store, user: UserId) returns (replies: seq<Reply>)
    requires store.Valid() && store.Owned()
    modifies store
    ensures store.Valid() && store.Owned()
    ensures store.users == WithUser(old(store.users), user)
    ensures store.rows == old(store.rows) && store.nextId == old(store.nextId)
    ensures replies == [DashboardLink(user)]
  {
    store.RegisterUser(user);
    replies := [DashboardLink(user)];
  }

  // ---------------------------------------------------------------------------
  // Scheduled broadcasts

  /** The weekly digests, in the order of the users table: one for each user whose summary is not empty. */
  function WeeklyMessages(rows: seq<Transaction>, users: seq<UserId>, today: Date): seq<Message>
    requires IsValid(today)
  {
    if users == [] then []
    else
      var u := users[|users| - 1];
      var groups := Summary(rows, u, today);
      WeeklyMessages(rows, users[..|users| - 1], today) +
        (if groups == [] then [] else [Message(u, WeeklyDigest(Report(groups)))])
  }

  /** The month-start balances, in the order of the users table: one for every user. */
  function MonthlyMessages(rows: seq<Transaction>, users: seq<UserId>): (sent: seq<Message>)
    ensures |sent| == |users|
    ensures forall i :: 0 <= i < |users| ==>
      sent[i] == Message(users[i], MonthStartBalance(IndicatorFor(Balance(rows, users[i])), Balance(rows, users[i])))
  {
    if users == [] then []
    else
      var u := users[|users| - 1];
      var saldo := Balance(rows, u);
      MonthlyMessages(rows, users[..|users| - 1]) + [Message(u, MonthStartBalance(IndicatorFor(saldo), saldo))]
  }

  /** Taking one user more from the table adds that user's digest, if their summary is not empty. */
  lemma WeeklyMessagesStep(rows: seq<Transaction>, users: seq<UserId>, i: int, today: Date)
    requires IsValid(today) && 0 <= i < |users|
    ensures Summary(rows, users[i], today) == [] ==>
      WeeklyMessages(rows, users[..i + 1], today) == WeeklyMessages(rows, users[..i], today)
    ensures Summary(rows, users[i], today) != [] ==>
      WeeklyMessages(rows, users[..i + 1], today) ==
        WeeklyMessages(rows, users[..i], today) + [Message(users[i], WeeklyDigest(Report(Summary(rows, users[i], today))))]
  {
    assert users[..i + 1][..i] == users[..i];
  }

  /**
   * The weekly digests go to registered users with a non-empty summary, carry
   * the lines of that summary, and reach every such user.
   */
  lemma {:induction false} WeeklyMessagesSpec(rows: seq<Transaction>, users: seq<UserId>, today: Date)
    requires IsValid(today)
    ensures forall m :: m in WeeklyMessages(rows, users, today) ==>
      && m.chat in users
      && Summary(rows, m.chat, today) != []
      && m.reply == WeeklyDigest(Report(Summary(rows, m.chat, today)))
    ensures forall u :: u in users && Summary(rows, u, today) != [] ==>
      Message(u, WeeklyDigest(Report(Summary(rows, u, today)))) in WeeklyMessages(rows, users, today)
  {
    if users != [] {
      var init, u := users[..|users| - 1], users[|users| - 1];
      assert users == init + [u];
      WeeklyMessagesSpec(rows, init, today);
      var sent := WeeklyMessages(rows, users, today);
      var earlier := WeeklyMessages(rows, init, today);
      if Summary(rows, u, today) == [] {
        assert sent == earlier;
      } else {
        assert sent == earlier + [Message(u, WeeklyDigest(Report(Summary(rows, u, today))))];
      }
    }
  }

  /**
   * Who gets a weekly digest: a user does exactly when registered and holding a
   * row dated in the seven-day window.
   */
  lemma WeeklyDigestRecipient(rows: seq<Transaction>, users: seq<UserId>, today: Date, u: UserId)
    requires IsValid(today)
    ensures (exists m :: m in WeeklyMessages(rows, users, today) && m.chat == u) <==>
      u in users && exists t :: t in rows && InSummaryWindow(t, u, today)
  {
    WeeklyMessagesSpec(rows, users, today);
    SummarySpec(rows, u, today);
    if u in users && Summary(rows, u, today) != [] {
      var m := Message(u, WeeklyDigest(Report(Summary(rows, u, today))));
      assert m in WeeklyMessages(rows, users, today) && m.chat == u;
    }
  }

  /**
   * When every row belongs to a registered user, as the commands keep it, a user
   * gets a weekly digest exactly when holding a row dated in the seven-day window.
   */
  lemma WeeklyDigestForActiveUser(rows: seq<Transaction>, users: seq<UserId>, today: Date, u: UserId)
    requires IsValid(today)
    requires forall t :: t in rows ==> t.user in users
    ensures (exists m :: m in WeeklyMessages(rows, users, today) && m.chat == u) <==>
      exists t :: t in rows && InSummaryWindow(t, u, today)
  {
    WeeklyDigestRecipient(rows, users, today, u);
  }

  /** `enviar_resumo_semanal`: walks the registry and sends each non-empty summary. */
  method SendWeeklySummaries(store: Store, today: Date) returns (sent: seq<Message>)
    requires store.Valid() && IsValid(today)
    ensures sent == WeeklyMessages(store.rows, store.users, today)
  {
    var users := store.ListUsers();
    var rows := store.rows;
    sent := [];
    for i := 0 to |users|
      invariant sent == WeeklyMessages(rows, users[..i], today)
    {
      WeeklyMessagesStep(rows, users, i, today);
      var groups := Summary(rows, users[i], today);
      if groups != [] {
        var lines := SummaryLines(groups);
        sent := sent + [Message(users[i], WeeklyDigest(lines))];
      }
    }
    assert users[..|users|] == users;
  }

  /** `enviar_saldo_mensal`: walks the registry and sends every user their balance. */
  method SendMonthlyBalances(store: Store) returns (sent: seq<Message>)
    requires store.Valid()
    ensures sent == MonthlyMessages(store.rows, store.users)
  {
    var users := store.ListUsers();
    sent := [];
    for i := 0 to |users|
      invariant sent == MonthlyMessages(store.rows, users[..i])
    {
      assert users[..i + 1][..i] == users[..i];
      var saldo := Balance(store.rows, users[i]);
      sent := sent + [Message(users[i], MonthStartBalance(IndicatorFor(saldo), saldo))];
    }
    assert users[..|users|] == users;
  }
}
