/**
 * The balance calculator: `saldo_atual` from the prior balance, the collected
 * taxas, the extra income, the fixed expenses and the extra expenses.
 * A negative result is a deficit, not an error.
 */
module Balance {

  /**
   * Line 134. The balance does not fall below the prior balance exactly when
   * the taxas and the extra income cover the fixed and the extra expenses.
   */
  function SaldoAtual(saldoAnterior: real, subtotalTaxa: real, receitasExtras: real,
                      totalDespesas: real, despesasExtras: real): (saldo: real)
    ensures saldo >= saldoAnterior <==> subtotalTaxa + receitasExtras >= totalDespesas + despesasExtras
  {
    saldoAnterior + subtotalTaxa + receitasExtras - totalDespesas - despesasExtras
  }

  /**
   * The balance is linear in each input: raising one input by `d` moves the
   * balance by `d` (prior balance, taxas, extra income) or by `-d` (fixed and
   * extra expenses). Monotonicity follows for `d >= 0`.
   */
  lemma SaldoAtualLinear(saldoAnterior: real, subtotalTaxa: real, receitasExtras: real,
                         totalDespesas: real, despesasExtras: real, d: real)
    ensures SaldoAtual(saldoAnterior + d, subtotalTaxa, receitasExtras, totalDespesas, despesasExtras)
         == SaldoAtual(saldoAnterior, subtotalTaxa, receitasExtras, totalDespesas, despesasExtras) + d
    ensures SaldoAtual(saldoAnterior, subtotalTaxa + d, receitasExtras, totalDespesas, despesasExtras)
         == SaldoAtual(saldoAnterior, subtotalTaxa, receitasExtras, totalDespesas, despesasExtras) + d
    ensures SaldoAtual(saldoAnterior, subtotalTaxa, receitasExtras + d, totalDespesas, despesasExtras)
         == SaldoAtual(saldoAnterior, subtotalTaxa, receitasExtras, totalDespesas, despesasExtras) + d
    ensures SaldoAtual(saldoAnterior, subtotalTaxa, receitasExtras, totalDespesas + d, despesasExtras)
         == SaldoAtual(saldoAnterior, subtotalTaxa, receitasExtras, totalDespesas, despesasExtras) - d
    ensures SaldoAtual(saldoAnterior, subtotalTaxa, receitasExtras, totalDespesas, despesasExtras + d)
         == SaldoAtual(saldoAnterior, subtotalTaxa, receitasExtras, totalDespesas, despesasExtras) - d
  {
  }

  /**
   * When the fixed expenses are fully allocated (some apartment is occupied)
   * and every row keeps caixa = taxa - rateio, the balance is the prior
   * balance plus the net caixa of the apartments plus the net extras.
   */
  lemma SaldoFromCaixa(saldoAnterior: real, subtotalRateio: real, subtotalTaxa: real, subtotalCaixa: real,
                       receitasExtras: real, totalDespesas: real, despesasExtras: real)
    requires subtotalRateio == totalDespesas
    requires subtotalCaixa == subtotalTaxa - subtotalRateio
    ensures SaldoAtual(saldoAnterior, subtotalTaxa, receitasExtras, totalDespesas, despesasExtras)
         == saldoAnterior + subtotalCaixa + receitasExtras - despesasExtras
  {
  }

  /** A deficit is a value like any other: the balance can be negative. */
  lemma DeficitExample()
    ensures SaldoAtual(0.0, 0.0, 0.0, 10.0, 0.0) < 0.0
    ensures SaldoAtual(100.0, 300.0, 50.0, 280.0, 30.0) == 140.0
  {
  }
}
