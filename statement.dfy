/**
 * The whole computation of one monthly statement, in the order the script
 * runs it: occupancy flags, fixed expenses, the two extra-amount texts, the
 * allocation with its subtotals, and the current balance. The form's answers
 * arrive as one input value; nothing is shared between two computations.
 */
module Statement {
  import opened Allocation
  import MoneyParser
  import Balance

  /** The figures of the final summary. */
  datatype ReportTotals = ReportTotals(
    saldoAnterior: real,
    apartamentosOcupados: nat,
    rateioPorUnidade: real,
    subtotalRateio: real,
    subtotalTaxa: real,
    subtotalCaixa: real,
    totalDespesas: real,
    receitasExtras: real,
    despesasExtras: real,
    saldoAtual: real)

  /** The two tables and the summary. */
  datatype Report = Report(units: seq<UnitRow>, expenses: seq<ExpenseLine>, totals: ReportTotals)

  /**
   * What the form supplies: the prior balance, one occupancy answer per
   * apartment, one value per fixed expense, the two free texts, and the taxa
   * entered for each apartment (asked for only when it is occupied).
   */
  datatype FormInput = FormInput(
    saldoAnterior: real,
    occupied: seq<bool>,
    expenseValues: seq<real>,
    despesasExtrasTexto: string,
    receitasExtrasTexto: string,
    taxas: seq<real>)

  /** One answer per apartment and one value per fixed expense, as the form always gives. */
  predicate Complete(input: FormInput) {
    && |input.occupied| == |Apartments|
    && |input.taxas| == |Apartments|
    && |input.expenseValues| == |FixedExpenseNames|
  }

  predicate AnyOccupied(input: FormInput)
    requires Complete(input)
  {
    exists i :: 0 <= i < |Apartments| && input.occupied[i]
  }

  /** Lines 76-134 of the script. */
  method ComputeStatement(input: FormInput) returns (report: Report)
    requires Complete(input)
    // The receipts table: one row per apartment, in order.
    ensures |report.units| == |Apartments|
    ensures forall i :: 0 <= i < |Apartments| ==>
      && report.units[i].apartment == Apartments[i]
      && report.units[i].occupied == input.occupied[i]
      && RowFits(report.units[i], Apartments[i], input.occupied[i], input.taxas[i], report.totals.rateioPorUnidade)
    // The expense table and its total.
    ensures report.expenses == [ExpenseLine("CELPE", input.expenseValues[0]), ExpenseLine("COMPESA", input.expenseValues[1])]
    ensures report.totals.totalDespesas == input.expenseValues[0] + input.expenseValues[1]
    // The extras.
    ensures report.totals.despesasExtras == MoneyParser.ExtraTotal(input.despesasExtrasTexto)
    ensures report.totals.receitasExtras == MoneyParser.ExtraTotal(input.receitasExtrasTexto)
    // The allocation: the count of yes answers, the equal share, and each subtotal as its column's sum.
    ensures report.totals.apartamentosOcupados == |set i: nat | i < |input.occupied| && input.occupied[i]|
    ensures report.totals.rateioPorUnidade ==
      RateioPorUnidade(report.totals.totalDespesas, report.totals.apartamentosOcupados)
    ensures report.totals.subtotalRateio == SumOf(report.units, RowRateio)
    ensures report.totals.subtotalTaxa == SumOf(report.units, RowTaxa)
    ensures report.totals.subtotalCaixa == SumOf(report.units, RowCaixa)
    ensures report.totals.subtotalCaixa == report.totals.subtotalTaxa - report.totals.subtotalRateio
    ensures AnyOccupied(input) ==> report.totals.subtotalRateio == report.totals.totalDespesas
    ensures !AnyOccupied(input) ==> report.totals.subtotalRateio == 0.0 && report.totals.rateioPorUnidade == 0.0
    // The balance.
    ensures report.totals.saldoAnterior == input.saldoAnterior
    ensures report.totals.saldoAtual == Balance.SaldoAtual(input.saldoAnterior, report.totals.subtotalTaxa,
      report.totals.receitasExtras, report.totals.totalDespesas, report.totals.despesasExtras)
    ensures AnyOccupied(input) ==>
      report.totals.saldoAtual ==
        input.saldoAnterior + report.totals.subtotalCaixa + report.totals.receitasExtras - report.totals.despesasExtras
  {
    var flags := CollectOccupancy(Apartments, input.occupied);
    ApartmentsDistinct();
    DistinctLabelsKeepAnswers(Apartments, input.occupied, flags);

    var expenses, totalDespesas := SumFixedExpenses(FixedExpenseNames, input.expenseValues);
    SumOfTwo(expenses, LineValue);
    assert expenses[0] == ExpenseLine("CELPE", input.expenseValues[0]);
    assert expenses[1] == ExpenseLine("COMPESA", input.expenseValues[1]);
    assert expenses == [expenses[0], expenses[1]];

    var despesasExtras := MoneyParser.ExtraTotal(input.despesasExtrasTexto);
    var receitasExtras := MoneyParser.ExtraTotal(input.receitasExtrasTexto);

    var apartamentosOcupados := OccupiedCount(Apartments, flags);
    var rateioPorUnidade, units, subtotalRateio, subtotalTaxa, subtotalCaixa :=
      Allocate(Apartments, flags, input.taxas, totalDespesas);

    var saldoAtual := Balance.SaldoAtual(input.saldoAnterior, subtotalTaxa, receitasExtras, totalDespesas, despesasExtras);

    if AnyOccupied(input) {
      Balance.SaldoFromCaixa(input.saldoAnterior, subtotalRateio, subtotalTaxa, subtotalCaixa,
                             receitasExtras, totalDespesas, despesasExtras);
    }
    report := Report(units, expenses,
      ReportTotals(input.saldoAnterior, apartamentosOcupados, rateioPorUnidade, subtotalRateio, subtotalTaxa, subtotalCaixa,
                   totalDespesas, receitasExtras, despesasExtras, saldoAtual));
  }

  /** The extra-expense text of the worked scenario below. */
  lemma BulbText()
    ensures MoneyParser.ExtraTotal("Bulb R$ 20,00") == 20.0
  {
    MoneyParser.AmountOfFive("20,00");
    MoneyParser.DescribedItem("Bulb R$", "20,00", "Bulb R$ 20,00");
  }

  /** The extra-income text of the worked scenario below. */
  lemma FineText()
    ensures MoneyParser.ExtraTotal("Fine R$ 50,00") == 50.0
  {
    MoneyParser.AmountOfFive("50,00");
    MoneyParser.DescribedItem("Fine R$", "50,00", "Fine R$ 50,00");
  }

  /**
   * Six apartments, four occupied paying 80 each, fixed expenses 150 and 50,
   * extra expenses of 20 and extra income of 50 (such as the texts of
   * `BulbText` and `FineText`), no prior balance: each occupied apartment
   * bears 50 and keeps 30, and the balance is 0 + 320 + 50 - 200 - 20 = 150.
   */
  method SixUnitScenario(despesasTexto: string, receitasTexto: string) returns (report: Report)
    requires MoneyParser.ExtraTotal(despesasTexto) == 20.0
    requires MoneyParser.ExtraTotal(receitasTexto) == 50.0
    ensures |report.units| == 6 && report.totals.rateioPorUnidade == 50.0
    ensures forall i :: 0 <= i < 4 ==> report.units[i].rateio == 50.0 && report.units[i].caixa == 30.0
    ensures forall i :: 4 <= i < 6 ==>
      report.units[i].rateio == 0.0 && report.units[i].taxa == 0.0 && report.units[i].caixa == 0.0
    ensures report.totals.totalDespesas == 200.0
    ensures report.totals.despesasExtras == 20.0 && report.totals.receitasExtras == 50.0
    ensures report.totals.subtotalRateio == 200.0
    ensures report.totals.subtotalTaxa == 320.0 && report.totals.subtotalCaixa == 120.0
    ensures report.totals.saldoAtual == 150.0
  {
    var input := FormInput(0.0, [true, true, true, true, false, false], [150.0, 50.0],
                           despesasTexto, receitasTexto, [80.0, 80.0, 80.0, 80.0, 0.0, 0.0]);
    report := ComputeStatement(input);
    var t := report.totals;
    assert AnyOccupied(input) by { assert input.occupied[0]; }
    assert t.totalDespesas == 200.0 && t.subtotalRateio == 200.0;
    var u := report.units;
    assert RowFits(u[4], Apartments[4], false, 0.0, t.rateioPorUnidade);
    assert RowFits(u[5], Apartments[5], false, 0.0, t.rateioPorUnidade);
    SumOfSix(u, RowRateio);
    SumOfSix(u, RowTaxa);
  }

  /** The scenario runs on the two texts of the worked example. */
  method SixUnitScenarioWithTexts() returns (report: Report)
    ensures |report.units| == 6 && report.totals.rateioPorUnidade == 50.0
    ensures forall i :: 0 <= i < 4 ==> report.units[i].rateio == 50.0 && report.units[i].caixa == 30.0
    ensures forall i :: 4 <= i < 6 ==>
      report.units[i].rateio == 0.0 && report.units[i].taxa == 0.0 && report.units[i].caixa == 0.0
    ensures report.totals.totalDespesas == 200.0
    ensures report.totals.despesasExtras == 20.0 && report.totals.receitasExtras == 50.0
    ensures report.totals.subtotalRateio == 200.0
    ensures report.totals.subtotalTaxa == 320.0 && report.totals.subtotalCaixa == 120.0
    ensures report.totals.saldoAtual == 150.0
  {
    BulbText();
    FineText();
    report := SixUnitScenario("Bulb R$ 20,00", "Fine R$ 50,00");
  }

  lemma SumOfSix<T>(xs: seq<T>, f: T -> real)
    requires |xs| == 6
    ensures SumOf(xs, f) == f(xs[0]) + f(xs[1]) + f(xs[2]) + f(xs[3]) + f(xs[4]) + f(xs[5])
  {
    assert xs[..5][..4] == xs[..4] && xs[..4][..3] == xs[..3] && xs[..3][..2] == xs[..2];
    SumOfTwo(xs[..2], f);
    assert SumOf(xs[..3], f) == SumOf(xs[..2], f) + f(xs[2]);
    assert SumOf(xs[..4], f) == SumOf(xs[..3], f) + f(xs[3]);
    assert SumOf(xs[..5], f) == SumOf(xs[..4], f) + f(xs[4]);
  }
}
