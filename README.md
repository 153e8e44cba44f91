# Prestação de Contas — accounting core

The Streamlit script `app.py` builds the monthly statement ("prestação de
contas") of a residential block of six apartments. This project models the
arithmetic of that statement in Dafny and proves what it promises:

- **the extra-amount parser**: `re.findall(r"[\d]+[\.,]\d{2}", texto)` followed
  by the sum of the matches, with `,` read as the decimal point. It is module
  `MoneyParser`, in `money_parser.dfy`. Text is a `string`, and amounts are
  exact integer cents;
- **the occupancy flags and the rateio engine**: the `ocupados_flags`
  dictionary, the fixed-expense loop, the occupied count, the equal split of
  the expenses and the receipts loop with its three subtotals. It is module
  `Allocation`, in `allocation.dfy`. The loops are methods with loop
  invariants. `CollectOccupancy` is proved against the dictionary's key set
  and `LastOccurrence` (a repeated label keeps its later answer). The other
  loops are proved against the specification functions `SumOf`,
  `OccupiedCount`, `RowsFit` and `CollectedTaxa`;
- **the balance** `saldo_atual`. It is module `Balance`, in `balance.dfy`;
- **the page arithmetic**: `centralizar_x`, the watermark geometry and the
  download file name. It is module `Layout`, in `layout.dfy`;
- **the whole computation**, from the form's answers to the final summary,
  in the order the script runs it. It is module `Statement`, in
  `statement.dfy`. `Wrappers` holds the `Option` type.

Money in the allocation and the balance is `real`. The arithmetic is exact and
float rounding is abstracted away.

Two behaviours of the script are worth knowing when reading the model:

- The parser reads no thousands grouping: `1.234,56` gives the matches `1.23`
  and `4,56`, total 5.79 (`MoneyParser.ThousandsGroupingExample`).
- The download file name is `Prestacao_Contas_{bloco}_{mes_ano}.pdf`, with
  every `/` of the month replaced by `-` (app.py:171, `Layout.PdfFileName`).

## Model

| member | source | states |
|---|---|---|
| MoneyParser.DigitRunEnd | app.py:98 | the greedy `[\d]+` from a position stops at the end of the digit run: every character before it is a digit, and the one at it is not |
| MoneyParser.MatchEnd | app.py:98 | the pattern tried at one position: a reported end is a match, and any match at that position ends there (the match is unique, with no second match through backtracking) |
| MoneyParser.Scan | app.py:98 | `re.findall`'s scan: every span it reports is a match of the pattern at or after the start, and the spans are in order and do not overlap |
| MoneyParser.ScanIsFindall | app.py:98 | the scan meets the declarative description of findall: the first match is leftmost, and the search resumes right after each match |
| MoneyParser.FindallUnique | app.py:98 | at most one span list meets that description |
| MoneyParser.ScanCharacterisation | app.py:98 | both directions: a span list is the scan's result if and only if it is leftmost-first and non-overlapping |
| MoneyParser.Findall | app.py:98 | the list of matched substrings: one per reported span, each exactly one amount (digits, a `.` or `,`, two digits) |
| MoneyParser.AmountCents | app.py:99 | the value of one match in cents: divided by 100 it is the integer part, and the remainder is the two fraction digits; its inverse is `FormatCents` (`FormatCentsValue`) |
| MoneyParser.SumCents | app.py:99 | the generator `sum` over the matches: 0 for no match, and no match is dropped (each is at most the sum); it adds up over concatenated lists (`SumCentsAppend`) |
| MoneyParser.ExtraTotalCents | app.py:99 | the sum of the matches in cents; with no match the total is exactly 0, and every match counts towards it |
| MoneyParser.ExtraTotal | app.py:99 | the total as a decimal amount: non-negative, and 100 times it is the cent total |
| MoneyParser.NoDigitNoAmount | app.py:98-99 | a text without a digit has no match and totals 0 (no error) |
| MoneyParser.FindallOfJoin | app.py:98 | two texts joined by a character that is neither a digit nor a separator have the concatenation of their match lists as their matches |
| MoneyParser.ScanOfJoin | app.py:98 | the same for spans: the second text's spans are moved past the first text and the break |
| MoneyParser.ExtraTotalOfJoin | app.py:99 | items separated by such a character add up: the total of the joined text is the sum of the totals |
| MoneyParser.FormatCents | app.py:99 | a number of cents written with two decimals and a `.` or `,` is one amount text |
| MoneyParser.FormatCentsValue | app.py:99 | reading such a text back gives the same number of cents |
| MoneyParser.FormatCentsRoundTrip | app.py:98-99 | round trip: the written amount is found as exactly one match, and the parser's total is the original number of cents |
| MoneyParser.DescribedItem | app.py:97-99 | a description without digits, a space and one amount total that amount |
| MoneyParser.ThousandsGroupingMatches | app.py:98 | `1.234,56` yields the two matches `1.23` and `4,56` |
| MoneyParser.ThousandsGroupingExample | app.py:99 | so `1.234,56` totals 1.23 + 4.56, not 1234.56 |
| MoneyParser.ItemListExample | app.py:97-99 | an item list shaped like the form's hint (`Lamp R$ 20,00; Valve R$ 75,60`, the hint's items written without accents) totals 95.60 |
| MoneyParser.NoAmountExample | app.py:99 | a text with no amount, or an empty text, totals 0 |
| Allocation.CollectOccupancy | app.py:84-86 | the flags dictionary has one key per apartment label, and each label's value is its last answer |
| Allocation.DistinctLabelsKeepAnswers | app.py:84-86 | with distinct labels every apartment's flag is its own answer, the count is positive if and only if some answer is yes, and the count is the number of yes answers |
| Allocation.ApartmentsDistinct | app.py:79 | the six apartment labels are distinct |
| Allocation.SumFixedExpenses | app.py:89-94 | one expense line per name in order, the total is the sum of the line values, and the total is non-negative when every value is |
| Allocation.SumOfNonNegative | app.py:92-94 | a sum of non-negative values is non-negative |
| Allocation.OccupiedCount | app.py:108 | the occupied count is at most the number of apartments; it is 0 if and only if no flag is set, and it is the total if and only if every flag is set |
| Allocation.OccupiedCountIsCardinality | app.py:108 | the count equals the number of positions whose flag is true |
| Allocation.RateioPorUnidade | app.py:109 | with a positive count, share times count is the expense total; with none occupied the share is 0 (no division by zero); a non-negative total gives a non-negative share |
| Allocation.SharesCoverTotal | app.py:109 | the share added once per occupied apartment gives back the expense total, or 0 when none is occupied |
| Allocation.RepeatedIsProduct | app.py:130 | adding the share once per occupied row is multiplying it by the count |
| Allocation.Allocate | app.py:108-132 | one row per apartment in order; vacant rows all zero; occupied rows carry the share, their own taxa and caixa = taxa − rateio; each subtotal is its column's sum; subtotal_caixa = subtotal_taxa − subtotal_rateio; subtotal_rateio is the expense total when some apartment is occupied and 0 otherwise; subtotal_taxa is the taxa of the occupied apartments |
| Allocation.PrefixFits | app.py:115-129 | a prefix of a fitting table fits the same prefix of the inputs |
| Allocation.CaixaSubtotal | app.py:130-132 | rows that keep caixa = taxa − rateio have subtotals that keep it too |
| Allocation.RateioSubtotal | app.py:115-130 | the rateio column adds up to the share once per occupied apartment |
| Allocation.TaxaSubtotal | app.py:115-131 | the taxa column adds up to the taxas of the occupied apartments only |
| Balance.SaldoAtual | app.py:134 | the five-term balance: it is at least the prior balance if and only if taxas plus extra income cover fixed plus extra expenses; further properties in `SaldoAtualLinear` and `SaldoFromCaixa` |
| Balance.SaldoAtualLinear | app.py:134 | raising the prior balance, the taxas or the extra income by d raises the balance by d; raising either kind of expense by d lowers it by d |
| Balance.SaldoFromCaixa | app.py:134 | with the expenses fully allocated, the balance is the prior balance plus the net caixa plus the net extras |
| Balance.DeficitExample | app.py:134 | the balance can be negative; a deficit is a value, not an error |
| Layout.CentralizarX | app.py:146-148 | the gap to the left margin equals the gap to the right margin on a 210 mm page, and the block starts at or after the margin if and only if it fits |
| Layout.CentralizarXUnique | app.py:146-148 | the equal-gap position is unique |
| Layout.WatermarkPlacement | app.py:50-58 | an image of width 0 gets no watermark; otherwise the width is 60% of the page, the aspect ratio is kept, and the image is centred both ways |
| Layout.ReplaceSlash | app.py:171 | same length, every `/` becomes `-` and nothing else changes, and no `/` is left |
| Layout.PdfFileName | app.py:171 | `Prestacao_Contas_`, then the block, then `_`, then the month with its slashes replaced, then `.pdf`; the month part has no `/` |
| Layout.ReplaceSlashExample | app.py:171 | the default month `nov./25` appears in the file name as `nov.-25` |
| Statement.ComputeStatement | app.py:76-134 | the whole statement: the receipts table, the expense table and its total, both extra totals from the parser, the occupied count as the number of yes answers, the share as `RateioPorUnidade` of the expense total and that count, the subtotals as column sums, the caixa identity, full allocation of the expenses when some apartment is occupied, and the balance (also as prior balance + net caixa + net extras) |
| Statement.BulbText | app.py:97-99 | `Bulb R$ 20,00` totals 20.00 |
| Statement.FineText | app.py:103-105 | `Fine R$ 50,00` totals 50.00 |
| Statement.SixUnitScenario | app.py:108-134 | four of six apartments occupied, paying 80 each, with expenses 150 + 50, extras 20 and 50, and no prior balance: each occupied apartment bears 50 and keeps 30, each vacant row is all zeros, the subtotals are 200, 320 and 120, and the balance is 150 |
| Statement.SixUnitScenarioWithTexts | app.py:97-134 | the same scenario with the extras given as the texts `Bulb R$ 20,00` and `Fine R$ 50,00`: every row, the extra totals 20 and 50, the subtotals 200, 320 and 120, and the balance 150 |

## Left out

- The Streamlit widgets are not modelled: page setup, headings, `st.write`, the two buttons and the success and download widgets (app.py:64-68, 80, 88, 96, 102, 136-142, 153, 167-170, 172-173). Their answers are parameters instead. The prior balance, the six occupancy answers, the two expense values, the two extra texts and the taxas form the `FormInput` record of `Statement.ComputeStatement`. `bloco` and `mes_ano` are the parameters of `Layout.PdfFileName`, which models the file name of line 171. `quadra` feeds only the PDF's running header (app.py:30, 155). `assinante` is read at app.py:77 and not used anywhere else in the script.
- The PDF document setup (app.py:154-158) is left out along with the drawing: the watermark path, the `PDF` object, `alias_nb_pages`, `add_page` and the automatic page break with a 20 mm margin.
- The lower bounds of `st.number_input` (`min_value=0.0`) are not imposed on the input. Contracts that need non-negative values, such as `Allocation.SumFixedExpenses`, state them as a hypothesis.
- `st.number_input` is asked for an apartment's taxa only when that apartment is occupied (app.py:119). The model takes one taxa per apartment and reads only those of occupied apartments.
- The `PDF` class's `header` and `footer` (app.py:25-37) are drawing calls into the PDF library, which is not part of this model.
- In `colocar_marca_dagua` (app.py:39-59), the model leaves out image loading, alpha scaling, the temporary file and the printed error message. Only the geometry of lines 50-57 is modelled, in `Layout.WatermarkPlacement`. A failing division is its `None` case.
- PDF serialisation and the latin1 encoding (app.py:165) are left out. The report body is an empty placeholder in the script (app.py:160).
- Two-decimal display formatting (app.py:138-141) is left out.
- Floating-point rounding is left out. The parser's amounts are exact cents, and allocation and balance are exact `real`. The model does not capture the binary rounding of `float`, or infinities.
- `MoneyParser.IsDigit`: Python's `\d` on `str` also matches non-ASCII decimal digits. The model recognises only `0`-`9`.
- `Allocation.CollectOccupancy` is stated for any label list. A repeated label keeps its last answer. The script's own six labels are distinct (`Allocation.ApartmentsDistinct`), so every later lookup (`ocupados_flags[apto]`) finds its key.
