/**
 * The allocation ("rateio") engine: the occupancy flags, the fixed-expense
 * total, the equal split of that total among the occupied apartments, the
 * receipts table with one row per apartment and its three subtotals.
 *
 * Amounts are `real`: the arithmetic is exact and float rounding is
 * abstracted away.
 */
module Allocation {

  /** The apartments of the block, in table order. */
  const Apartments: seq<string> := ["101", "102", "201", "202", "301", "302"]

  /** The fixed recurring expenses, in table order. */
  const FixedExpenseNames: seq<string> := ["CELPE", "COMPESA"]

  /** One row of the expense table: `{"Despesa": nome, "Valor": valor}`. */
  datatype ExpenseLine = ExpenseLine(name: string, value: real)

  /** One row of the receipts table. */
  datatype UnitRow = UnitRow(apartment: string, occupied: bool, rateio: real, taxa: real, caixa: real)

  function LineValue(line: ExpenseLine): real { line.value }
  function RowRateio(row: UnitRow): real { row.rateio }
  function RowTaxa(row: UnitRow): real { row.taxa }
  function RowCaixa(row: UnitRow): real { row.caixa }

  /** `f` summed over `xs` from left to right, as a `+=` loop accumulates it. */
  function SumOf<T>(xs: seq<T>, f: T -> real): real {
    if xs == [] then 0.0 else SumOf(xs[..|xs| - 1], f) + f(xs[|xs| - 1])
  }

  lemma {:induction false} SumOfNonNegative<T>(xs: seq<T>, f: T -> real)
    requires forall i :: 0 <= i < |xs| ==> f(xs[i]) >= 0.0
    ensures SumOf(xs, f) >= 0.0
    decreases |xs|
  {
    if xs != [] {
      SumOfNonNegative(xs[..|xs| - 1], f);
    }
  }

  lemma SumOfTwo<T>(xs: seq<T>, f: T -> real)
    requires |xs| == 2
    ensures SumOf(xs, f) == f(xs[0]) + f(xs[1])
  {
    assert xs[..1][..0] == [] && xs[..1] == [xs[0]];
    assert SumOf(xs[..1], f) == f(xs[0]);
  }

  /** The label occurs at `i` and nowhere after it. */
  predicate LastOccurrence(labels: seq<string>, i: nat)
    requires i < |labels|
  {
    forall j :: i < j < |labels| ==> labels[j] != labels[i]
  }

  lemma ApartmentsDistinct()
    ensures forall i :: 0 <= i < |Apartments| ==> LastOccurrence(Apartments, i)
  {
  }

  // ---------------------------------------------------------------------------
  // The occupancy flags and the occupied count
  // ---------------------------------------------------------------------------

  /**
   * Fills the dictionary `ocupados_flags` from one checkbox answer per
   * apartment. A label that occurs twice keeps its later answer.
   */
  method CollectOccupancy(apartments: seq<string>, answers: seq<bool>) returns (flags: map<string, bool>)
    requires |answers| == |apartments|
    ensures flags.Keys == set a | a in apartments
    ensures forall i :: 0 <= i < |apartments| && LastOccurrence(apartments, i) ==>
      flags[apartments[i]] == answers[i]
  {
    flags := map[];
    var k := 0;
    while k < |apartments|
      invariant 0 <= k <= |apartments|
      invariant flags.Keys == set a | a in apartments[..k]
      invariant forall i :: 0 <= i < k && LastOccurrence(apartments[..k], i) ==>
        flags[apartments[i]] == answers[i]
    {
      flags := flags[apartments[k] := answers[k]];
      k := k + 1;
    }
    assert apartments[..k] == apartments;
  }

  /**
   * With distinct labels the dictionary holds every apartment's own answer,
   * some apartment counts as occupied exactly when some answer is yes, and
   * the occupied count is the number of yes answers.
   */
  lemma DistinctLabelsKeepAnswers(apartments: seq<string>, answers: seq<bool>, flags: map<string, bool>)
    requires |answers| == |apartments|
    requires forall i :: 0 <= i < |apartments| ==> LastOccurrence(apartments, i)
    requires flags.Keys == set a | a in apartments
    requires forall i :: 0 <= i < |apartments| && LastOccurrence(apartments, i) ==> flags[apartments[i]] == answers[i]
    ensures forall i :: 0 <= i < |apartments| ==> apartments[i] in flags && flags[apartments[i]] == answers[i]
    ensures OccupiedCount(apartments, flags) > 0 <==> exists i :: 0 <= i < |apartments| && answers[i]
    ensures OccupiedCount(apartments, flags) == |set i: nat | i < |answers| && answers[i]|
  {
    assert forall i :: 0 <= i < |apartments| ==> apartments[i] in flags;
    OccupiedCountIsCardinality(apartments, flags);
    assert OccupiedPositions(apartments, flags) == set i: nat | i < |answers| && answers[i];
  }

  /** `sum(1 for apto in apartamentos if ocupados_flags[apto])`. */
  function OccupiedCount(apartments: seq<string>, flags: map<string, bool>): (n: nat)
    requires forall i :: 0 <= i < |apartments| ==> apartments[i] in flags
    ensures n <= |apartments|
    ensures n == 0 <==> forall i :: 0 <= i < |apartments| ==> !flags[apartments[i]]
    ensures n == |apartments| <==> forall i :: 0 <= i < |apartments| ==> flags[apartments[i]]
  {
    if apartments == [] then 0
    else
      var init := apartments[..|apartments| - 1];
      assert forall i :: 0 <= i < |init| ==> init[i] == apartments[i];
      OccupiedCount(init, flags) + (if flags[apartments[|apartments| - 1]] then 1 else 0)
  }

  /** The positions of the occupied apartments. */
  function OccupiedPositions(apartments: seq<string>, flags: map<string, bool>): set<nat>
    requires forall i :: 0 <= i < |apartments| ==> apartments[i] in flags
  {
    set i: nat | i < |apartments| && flags[apartments[i]]
  }

  /** Extending the list by one apartment adds its position exactly when it is occupied. */
  lemma OccupiedPositionsSnoc(apartments: seq<string>, flags: map<string, bool>)
    requires apartments != []
    requires forall i :: 0 <= i < |apartments| ==> apartments[i] in flags
    ensures var n := |apartments| - 1;
      OccupiedPositions(apartments, flags) ==
        OccupiedPositions(apartments[..n], flags) + (if flags[apartments[n]] then {n} else {})
  {
    var n := |apartments| - 1;
    var init := apartments[..n];
    var before := OccupiedPositions(init, flags);
    var after := OccupiedPositions(apartments, flags);
    forall i: nat | i in after ensures i in before || i == n {
      if i < n { assert init[i] == apartments[i]; }
    }
    forall i: nat | i in before ensures i in after {
      assert init[i] == apartments[i];
    }
  }

  /** The count is the number of positions whose flag is true. */
  lemma {:induction false} OccupiedCountIsCardinality(apartments: seq<string>, flags: map<string, bool>)
    requires forall i :: 0 <= i < |apartments| ==> apartments[i] in flags
    ensures OccupiedCount(apartments, flags) == |OccupiedPositions(apartments, flags)|
    decreases |apartments|
  {
    if apartments != [] {
      var n := |apartments| - 1;
      OccupiedCountIsCardinality(apartments[..n], flags);
      OccupiedPositionsSnoc(apartments, flags);
      assert n !in OccupiedPositions(apartments[..n], flags);
    }
  }

  /**
   * `rateio_por_unidade`: the fixed-expense total split equally among the
   * occupied apartments, or 0 when none is occupied (no division by zero).
   */
  function RateioPorUnidade(totalDespesas: real, occupied: nat): (r: real)
    ensures occupied > 0 ==> r * occupied as real == totalDespesas
    ensures occupied == 0 ==> r == 0.0
    ensures totalDespesas >= 0.0 ==> r >= 0.0
  {
    if occupied > 0 then totalDespesas / occupied as real else 0.0
  }

  // ---------------------------------------------------------------------------
  // The fixed-expense table
  // ---------------------------------------------------------------------------

  /**
   * Appends one line per fixed expense and accumulates `total_despesas`.
   * The total is the sum of the lines' values, and it is non-negative when
   * every value is.
   */
  method SumFixedExpenses(names: seq<string>, values: seq<real>) returns (lines: seq<ExpenseLine>, total: real)
    requires |values| == |names|
    ensures |lines| == |names|
    ensures forall i :: 0 <= i < |lines| ==> lines[i] == ExpenseLine(names[i], values[i])
    ensures total == SumOf(lines, LineValue)
    ensures (forall i :: 0 <= i < |values| ==> values[i] >= 0.0) ==> total >= 0.0
  {
    lines, total := [], 0.0;
    var k := 0;
    while k < |names|
      invariant 0 <= k <= |names|
      invariant |lines| == k
      invariant forall i :: 0 <= i < k ==> lines[i] == ExpenseLine(names[i], values[i])
      invariant total == SumOf(lines, LineValue)
    {
      var line := ExpenseLine(names[k], values[k]);
      assert (lines + [line])[..k] == lines;
      lines := lines + [line];
      total := total + values[k];
      k := k + 1;
    }
    if forall i :: 0 <= i < |values| ==> values[i] >= 0.0 {
      SumOfNonNegative(lines, LineValue);
    }
  }

  // ---------------------------------------------------------------------------
  // The receipts table
  // ---------------------------------------------------------------------------

  /**
   * What row `i` of the receipts table holds: a vacant apartment's row is all
   * zeros; an occupied one carries the per-unit share, its own taxa, and
   * caixa = taxa - rateio.
   */
  predicate RowFits(row: UnitRow, apartment: string, occupied: bool, taxa: real, rateioPorUnidade: real) {
    && row.apartment == apartment
    && row.occupied == occupied
    && (occupied ==> row.rateio == rateioPorUnidade && row.taxa == taxa && row.caixa == taxa - rateioPorUnidade)
    && (!occupied ==> row.rateio == 0.0 && row.taxa == 0.0 && row.caixa == 0.0)
  }

  /** The whole table: one fitting row per apartment, in apartment order. */
  predicate RowsFit(rows: seq<UnitRow>, apartments: seq<string>, flags: map<string, bool>,
                    taxas: seq<real>, rateioPorUnidade: real)
    requires forall i :: 0 <= i < |apartments| ==> apartments[i] in flags
    requires |taxas| == |apartments|
  {
    && |rows| == |apartments|
    && forall i :: 0 <= i < |rows| ==>
         RowFits(rows[i], apartments[i], flags[apartments[i]], taxas[i], rateioPorUnidade)
  }

  /** A prefix of a fitting table fits the same prefix of the inputs. */
  lemma PrefixFits(rows: seq<UnitRow>, apartments: seq<string>, flags: map<string, bool>,
                   taxas: seq<real>, rateioPorUnidade: real, n: nat)
    requires forall i :: 0 <= i < |apartments| ==> apartments[i] in flags
    requires |taxas| == |apartments|
    requires RowsFit(rows, apartments, flags, taxas, rateioPorUnidade)
    requires n <= |rows|
    ensures forall i :: 0 <= i < n ==> apartments[..n][i] in flags
    ensures RowsFit(rows[..n], apartments[..n], flags, taxas[..n], rateioPorUnidade)
  {
  }

  /** Every row keeps caixa = taxa - rateio, so the subtotals keep it too. */
  lemma {:induction false} CaixaSubtotal(rows: seq<UnitRow>)
    requires forall i :: 0 <= i < |rows| ==> rows[i].caixa == rows[i].taxa - rows[i].rateio
    ensures SumOf(rows, RowCaixa) == SumOf(rows, RowTaxa) - SumOf(rows, RowRateio)
    decreases |rows|
  {
    if rows != [] {
      CaixaSubtotal(rows[..|rows| - 1]);
    }
  }

  /** `share` added `count` times, as the loop adds the per-unit share once per occupied row. */
  function Repeated(share: real, count: nat): real {
    if count == 0 then 0.0 else Repeated(share, count - 1) + share
  }

  lemma {:induction false} RepeatedIsProduct(share: real, count: nat)
    ensures Repeated(share, count) == count as real * share
  {
    if count > 0 {
      RepeatedIsProduct(share, count - 1);
      assert count as real * share == (count - 1) as real * share + share;
    }
  }

  /** The per-unit shares of the occupied apartments add back up to the total; with none occupied, to 0. */
  lemma SharesCoverTotal(totalDespesas: real, occupied: nat)
    ensures Repeated(RateioPorUnidade(totalDespesas, occupied), occupied) ==
      if occupied > 0 then totalDespesas else 0.0
  {
    RepeatedIsProduct(RateioPorUnidade(totalDespesas, occupied), occupied);
  }

  /** The rateio column adds up to the per-unit share once per occupied apartment. */
  lemma {:induction false} RateioSubtotal(rows: seq<UnitRow>, apartments: seq<string>, flags: map<string, bool>,
                                          taxas: seq<real>, rateioPorUnidade: real)
    requires forall i :: 0 <= i < |apartments| ==> apartments[i] in flags
    requires |taxas| == |apartments|
    requires RowsFit(rows, apartments, flags, taxas, rateioPorUnidade)
    ensures SumOf(rows, RowRateio) == Repeated(rateioPorUnidade, OccupiedCount(apartments, flags))
    decreases |rows|
  {
    if rows != [] {
      var n := |rows| - 1;
      PrefixFits(rows, apartments, flags, taxas, rateioPorUnidade, n);
      RateioSubtotal(rows[..n], apartments[..n], flags, taxas[..n], rateioPorUnidade);
      assert RowFits(rows[n], apartments[n], flags[apartments[n]], taxas[n], rateioPorUnidade);
      var count := OccupiedCount(apartments[..n], flags);
      assert SumOf(rows, RowRateio) == SumOf(rows[..n], RowRateio) + rows[n].rateio;
      if flags[apartments[n]] {
        assert OccupiedCount(apartments, flags) == count + 1;
      } else {
        assert OccupiedCount(apartments, flags) == count;
      }
    }
  }

  /** `taxa` summed over the occupied apartments only. */
  function CollectedTaxa(apartments: seq<string>, flags: map<string, bool>, taxas: seq<real>): real
    requires forall i :: 0 <= i < |apartments| ==> apartments[i] in flags
    requires |taxas| == |apartments|
  {
    if apartments == [] then 0.0
    else
      var n := |apartments| - 1;
      CollectedTaxa(apartments[..n], flags, taxas[..n]) + (if flags[apartments[n]] then taxas[n] else 0.0)
  }

  /** The taxa column adds up to the taxas of the occupied apartments; vacant ones add nothing. */
  lemma {:induction false} TaxaSubtotal(rows: seq<UnitRow>, apartments: seq<string>, flags: map<string, bool>,
                                        taxas: seq<real>, rateioPorUnidade: real)
    requires forall i :: 0 <= i < |apartments| ==> apartments[i] in flags
    requires |taxas| == |apartments|
    requires RowsFit(rows, apartments, flags, taxas, rateioPorUnidade)
    ensures SumOf(rows, RowTaxa) == CollectedTaxa(apartments, flags, taxas)
    decreases |rows|
  {
    if rows != [] {
      var n := |rows| - 1;
      PrefixFits(rows, apartments, flags, taxas, rateioPorUnidade, n);
      TaxaSubtotal(rows[..n], apartments[..n], flags, taxas[..n], rateioPorUnidade);
    }
  }

  /**
   * Lines 108-132: counts the occupied apartments, splits the fixed-expense
   * total among them, builds one row per apartment and accumulates the three
   * subtotals. `taxas[i]` is what is entered for apartment `i`; it is only
   * asked for, and only read, when that apartment is occupied.
   */
  method Allocate(apartments: seq<string>, flags: map<string, bool>, taxas: seq<real>, totalDespesas: real)
    returns (rateioPorUnidade: real, rows: seq<UnitRow>,
             subtotalRateio: real, subtotalTaxa: real, subtotalCaixa: real)
    requires forall i :: 0 <= i < |apartments| ==> apartments[i] in flags
    requires |taxas| == |apartments|
    ensures rateioPorUnidade == RateioPorUnidade(totalDespesas, OccupiedCount(apartments, flags))
    ensures RowsFit(rows, apartments, flags, taxas, rateioPorUnidade)
    ensures subtotalRateio == SumOf(rows, RowRateio)
    ensures subtotalTaxa == SumOf(rows, RowTaxa)
    ensures subtotalCaixa == SumOf(rows, RowCaixa)
    ensures subtotalCaixa == subtotalTaxa - subtotalRateio
    ensures subtotalRateio == if OccupiedCount(apartments, flags) > 0 then totalDespesas else 0.0
    ensures subtotalTaxa == CollectedTaxa(apartments, flags, taxas)
  {
    var occupied := OccupiedCount(apartments, flags);
    rateioPorUnidade := RateioPorUnidade(totalDespesas, occupied);
    rows := [];
    subtotalRateio, subtotalTaxa, subtotalCaixa := 0.0, 0.0, 0.0;
    var k := 0;
    while k < |apartments|
      invariant 0 <= k <= |apartments|
      invariant RowsFit(rows, apartments[..k], flags, taxas[..k], rateioPorUnidade)
      invariant subtotalRateio == SumOf(rows, RowRateio)
      invariant subtotalTaxa == SumOf(rows, RowTaxa)
      invariant subtotalCaixa == SumOf(rows, RowCaixa)
    {
      var apto := apartments[k];
      var rateio, taxa, caixa;
      if flags[apto] {
        rateio := rateioPorUnidade;
        taxa := taxas[k];
        caixa := taxa - rateio;
      } else {
        rateio, taxa, caixa := 0.0, 0.0, 0.0;
      }
      var row := UnitRow(apto, flags[apto], rateio, taxa, caixa);
      assert (rows + [row])[..k] == rows;
      rows := rows + [row];
      subtotalRateio := subtotalRateio + rateio;
      subtotalTaxa := subtotalTaxa + taxa;
      subtotalCaixa := subtotalCaixa + caixa;
      k := k + 1;
      assert apartments[..k][..k - 1] == apartments[..k - 1];
      assert taxas[..k][..k - 1] == taxas[..k - 1];
    }
    assert apartments[..k] == apartments && taxas[..k] == taxas;
    CaixaSubtotal(rows);
    RateioSubtotal(rows, apartments, flags, taxas, rateioPorUnidade);
    SharesCoverTotal(totalDespesas, occupied);
    TaxaSubtotal(rows, apartments, flags, taxas, rateioPorUnidade);
  }
}
