# Amino-acid composition of a UniProt entry

A Dafny model of the analysis pipeline of the AA-protein-analyzer Streamlit
scripts. Each script takes a UniProt accession (AC), downloads its FASTA
record and, when the download succeeded and the body holds a `>`, does these
steps:

- drops the header lines (those whose first character is `>`);
- strips the surrounding whitespace from every other line and joins them into the residue sequence;
- shows a preview of at most 80 characters, followed by `...` when the sequence was cut;
- counts every residue in one pass, filling a dict;
- divides each count by the length;
- shows the result as a table sorted by residue.

The three scripts differ in the table and in what follows it:

- app_no_grafico_rapporti.py shows the three-column table (residue, count,
  relative frequency). It adds a five-row table of residue ratios in the fixed
  order E/Q, E/P, Y/F, D/N, G/S. Each ratio is 0 when its denominator residue
  does not occur.
- app_no_rapp.py shows the three-column table and no ratios.
- app_old.py shows a two-column table (residue, relative frequency).

The model is organised as follows:

- `Fasta`: line classification, Python's `str.strip`, the parsed sequence and the retrieval gate.
- `Display`: the preview.
- `Composition`: the counting loop, as a method over a `map<char, nat>` accumulator. The Python dict is a map plus the insertion order of its keys (`FirstOccurrences`). The method is proved equal to the functional counts `CountMap`. This module also holds the frequencies, as exact reals.
- `Sorting`: sorting rows by residue. The keys are unique, so the sorted table is the only strictly ascending arrangement of its rows (`SortedUnique`). No particular sort algorithm is assumed.
- `Table`: the unsorted DataFrame, whose columns are aligned through the dict order. It also holds the sorted three- and two-column tables and their properties.
- `Ratios`: `ratio(a, b)` and the ratio table.
- `Apps`: one method per script. Each takes the HTTP status and the lines of the response body and returns either the report or `NotFound`. It also holds the workbook's sheet names and the download's file name.

The input is the response as a status code and its list of lines. The gate
`'>' in response.text` becomes "some line contains `>`". A `>` is never a
line break, so the two conditions agree.

## Model

| member | source | states |
|---|---|---|
| Fasta.LeadingSpace | app_no_grafico_rapporti.py:28 | the number of leading characters `strip` removes: all of them are whitespace and the next one is not |
| Fasta.TrailingSpace | app_no_grafico_rapporti.py:28 | the same for the end of the line |
| Fasta.Strip | app_no_grafico_rapporti.py:28 | `l.strip()`: the line without its leading and trailing whitespace (the characters of `str.isspace`); its properties are in StripSpec |
| Fasta.StripSpec | app_no_grafico_rapporti.py:28 | `strip` keeps one contiguous run of the line that neither starts nor ends with whitespace; everything removed is whitespace; the result is empty exactly when the line is all whitespace |
| Fasta.IsHeader | app_no_grafico_rapporti.py:28 | `l.startswith(">")`: the raw line is non-empty and its first character is `>` |
| Fasta.Contribution | app_no_grafico_rapporti.py:28 | what one line adds to the sequence: nothing for a header, its stripped text otherwise |
| Fasta.ParseSequence | app_no_grafico_rapporti.py:27-28 | the `"".join` of the comprehension: the contributions of the lines, concatenated in list order; its properties are in ParseAppend, ParseAt and ParseEmpty |
| Fasta.Retrieved | app_no_grafico_rapporti.py:26 | the gate: status 200 and some line of the body contains `>` |
| Fasta.ParseAppend | app_no_grafico_rapporti.py:27-28 | parsing distributes over concatenation of the line list: lines contribute in their own order |
| Fasta.ParseAt | app_no_grafico_rapporti.py:28 | line i contributes nothing when it starts with `>`, and its stripped text at its own place otherwise |
| Fasta.ParseEmpty | app_no_grafico_rapporti.py:28 | the sequence is empty exactly when every non-header line is blank; a header-only record gives the empty sequence |
| Fasta.StripUnchanged | app_no_grafico_rapporti.py:28 | a line with non-whitespace ends is kept as it is |
| Fasta.IndentedMarkerNotHeader | app_no_grafico_rapporti.py:28 | the header test is made before stripping: a line of leading blanks followed by `>` is not a header, whatever follows |
| Fasta.IndentedMarkerIsKept | app_no_grafico_rapporti.py:28 | such a line is residue data: everything from the `>` on is kept in the sequence |
| Fasta.ParseTwoLines | app_no_grafico_rapporti.py:27-28 | example: a header and the lines `AB`, `CD` give `ABCD` |
| Fasta.ParseHeaderOnly | app_no_grafico_rapporti.py:27-28 | example: a lone header gives the empty sequence |
| Display.Preview | app_no_grafico_rapporti.py:31 | a sequence of at most 80 characters is shown whole; a longer one as its first 80 characters plus `...`, 83 in all |
| Display.PreviewIsPrefix | app_no_grafico_rapporti.py:31 | the preview is exactly as long as the sequence when that is at most 80, and 83 long otherwise; it agrees with the sequence on every position up to 80 |
| Display.PreviewIdempotent | app_no_grafico_rapporti.py:31 | previewing a preview changes nothing |
| Display.PreviewFixpoint | app_no_grafico_rapporti.py:31 | the preview equals the sequence exactly when the sequence is at most 80 long, or is 83 long and already ends in `...` |
| Composition.CountMap | app_no_grafico_rapporti.py:33-35 | the counts dict as a value: each residue that occurs, mapped to its number of occurrences; its properties are in CountMapSpec |
| Composition.GetOr | app_no_grafico_rapporti.py:58 | `dict.get(c, d)`: the entry under c, or the default d when c is not a key |
| Composition.Get | app_no_grafico_rapporti.py:35 | `aa_counts.get(aa, 0)`: GetOr with default 0 |
| Composition.Count | app_no_grafico_rapporti.py:33-35 | the number of occurrences of a residue never exceeds the length |
| Composition.FirstOccurrences | app_no_grafico_rapporti.py:33-35 | the dict's key order lists each residue of the sequence once and nothing else |
| Composition.CountResidues | app_no_grafico_rapporti.py:33-35 | the loop's dict is, residue for residue, the occurrence count, and its keys are in order of first occurrence |
| Composition.CountMapSnoc | app_no_grafico_rapporti.py:35 | one loop step: the residue's entry becomes its old value (0 when absent) plus one, and the other entries stay as they were |
| Composition.CountPositive | app_no_grafico_rapporti.py:33-35 | a residue's count is positive exactly when it occurs |
| Composition.CountMapSpec | app_no_grafico_rapporti.py:33-35 | the keys are exactly the residues that occur, each mapped to its count, which lies between 1 and the length |
| Composition.SumValuesIncrement | app_no_grafico_rapporti.py:35 | incrementing one listed key raises the sum of the listed counts by one |
| Composition.CountsSumToLength | app_no_grafico_rapporti.py:33-37 | the counts, summed over the dict's keys, add up to the length |
| Composition.Frequencies | app_no_grafico_rapporti.py:37-38 | the frequency dict has the counts' keys and each frequency times the total is the count; the empty dict needs no total, as no division happens |
| Composition.SumFrequenciesScaled | app_no_grafico_rapporti.py:37-38 | the sum of the frequencies times the total is the sum of the counts |
| Composition.FrequenciesOfSequence | app_no_grafico_rapporti.py:37-38 | one frequency per residue, each in (0, 1]; the empty sequence gives the empty dict |
| Composition.FrequencyBounds | app_no_grafico_rapporti.py:38 | counts between 1 and the total give frequencies in (0, 1] |
| Composition.FrequenciesSumToOne | app_no_grafico_rapporti.py:33-38 | for a non-empty sequence the frequencies add up to exactly 1 |
| Composition.SumToOne | app_no_grafico_rapporti.py:38 | keys whose counts make up the total have frequencies that add up to 1 |
| Composition.QuotientBounds | app_no_grafico_rapporti.py:38 | a count over a total at least as large lies in (0, 1], and is 1 when they are equal |
| Sorting.Keys | app_no_grafico_rapporti.py:41 | the key column of a table, position by position, used as the residue column of both tables |
| Sorting.Insert | app_no_grafico_rapporti.py:44 | inserting adds exactly one row to the multiset of rows |
| Sorting.Sort | app_no_grafico_rapporti.py:44 | sorting is a permutation of the rows |
| Sorting.InsertSorted | app_no_grafico_rapporti.py:44 | inserting a row with a new key keeps the rows strictly ascending |
| Sorting.SortSorted | app_no_grafico_rapporti.py:44 | rows with distinct keys come out strictly ascending by key |
| Sorting.HeadsEqual | app_no_grafico_rapporti.py:44 | two strictly ascending permutations of the same non-empty rows start with the same row |
| Sorting.SortedUnique | app_no_grafico_rapporti.py:44 | two strictly ascending permutations of the same rows are equal, so the table does not depend on the sort algorithm |
| Table.Rows | app_no_grafico_rapporti.py:40-43 | row i pairs the i-th key of the dict with its own count and frequency |
| Table.FrequencyRows | app_old.py:39-41 | row i pairs the i-th key with its own frequency |
| Table.DropCounts | app_old.py:39-42 | removing the count column keeps every row's residue and frequency, in place |
| Table.CompositionTable | app_no_grafico_rapporti.py:40-44 | the DataFrame of the aligned columns, sorted by residue; its properties are in CompositionTableSpec |
| Table.FrequencyTable | app_old.py:39-42 | the two-column DataFrame, sorted by residue; its properties are in FrequencyTableProjection |
| Table.CompositionOf | app_no_grafico_rapporti.py:33-44 | the three-column table the script builds from a sequence: its counts, key order and frequencies fed to CompositionTable; its properties are in CompositionOfSequence |
| Table.FrequencyTableOf | app_old.py:30-42 | the two-column table the earliest script builds from a sequence; its properties are in FrequencyTableOfSequence |
| Table.TotalsAppend | app_no_grafico_rapporti.py:40-44 | column totals add over concatenation |
| Table.TotalsPermutation | app_no_grafico_rapporti.py:44 | reordering rows leaves the column totals unchanged |
| Table.TotalsOfRows | app_no_grafico_rapporti.py:40-43 | the unsorted table's column totals are the sums over the dict |
| Table.CompositionTableSpec | app_no_grafico_rapporti.py:40-44 | the sorted table has one row per key; a residue appears exactly when it is a key; each row carries that key's count and frequency; rows strictly ascend by residue; the column totals are the dicts' sums |
| Table.CompositionOfSequence | app_no_grafico_rapporti.py:33-44 | for a sequence the table has one row per distinct residue and a residue appears exactly when it occurs. Each row's count is its occurrences, at least 1, and its frequency is the count over the length, in (0, 1]. Rows ascend. The counts add up to the length and, when the sequence is not empty, the frequencies to 1. An empty sequence gives an empty table |
| Table.DropCountsSort | app_old.py:39-42 | sorting then dropping counts equals dropping counts then sorting |
| Table.FrequencyTableProjection | app_old.py:39-42 | the two-column table is the three-column table without its count column |
| Table.FrequencyTableIsProjection | app_old.py:34-42 | the same for the tables built from a sequence |
| Table.DropCountsResidues | app_old.py:40 | removing the counts keeps the residue column |
| Table.FrequencyTableOfSequence | app_old.py:29-42 | the two-column table has one row per distinct residue; a residue appears exactly when it occurs; each frequency is the count over the length, in (0, 1]; rows ascend |
| Ratios.Ratio | app_no_grafico_rapporti.py:57-58 | the ratio is never negative; it is 0 when the denominator residue is absent or counted 0, and otherwise it times the denominator's count is the numerator's count (0 for an absent numerator) |
| Ratios.Label | app_no_grafico_rapporti.py:60-66 | a label is numerator, slash, denominator |
| Ratios.RatioTable | app_no_grafico_rapporti.py:60-68 | five rows, in the order E/Q, E/P, Y/F, D/N, G/S; each is labelled by its pair and holds that pair's ratio |
| Ratios.RatioLabels | app_no_grafico_rapporti.py:60-68 | the five labels are distinct, so the dict keeps all five rows, and they do not depend on the counts |
| Ratios.RatioOfSequence | app_no_grafico_rapporti.py:57-58 | on a sequence's counts, a ratio is the quotient of the two occurrence counts when the denominator occurs, and 0 otherwise |
| Ratios.RatioReciprocal | app_no_grafico_rapporti.py:57-58 | when both residues occur a ratio and its reverse multiply to 1 |
| Ratios.RatioExample | app_no_grafico_rapporti.py:57-66 | example: with two E, four Q and P a key with count 0, E/Q is 0.5 and E/P is 0 |
| Apps.ExportFileName | app_no_grafico_rapporti.py:93 | the file name is the accession followed by `_analisi_amminoacidica.xlsx` |
| Apps.MeasureComposition | app_no_grafico_rapporti.py:33-38 | the counts, their key order and the frequencies of the sequence |
| Apps.AnalyzeWithRatios | app_no_grafico_rapporti.py:26-68 | not found exactly when the status is not 200 or no `>` occurs. Otherwise the result holds the parsed sequence and its preview. It holds the composition table of the sequence, strictly ascending, with counts adding up to the length and frequencies adding up to 1 when the sequence is not empty. It holds the ratio table of the counts |
| Apps.AnalyzeWithoutRatios | app_no_rapp.py:26-48 | the same gate; otherwise the sequence, its preview and its ascending composition table, whose counts add up to the length |
| Apps.AnalyzeOld | app_old.py:21-42 | the same gate; otherwise the sequence, its preview and the ascending two-column table, which is the composition table without its counts |

## Left out

- The HTTP request to the UniProt REST service is not modelled. The method receives the status code and the body's lines as parameters.
- `str.splitlines` is not modelled: its line boundaries and the treatment of a trailing line break are not modelled. The response enters the model as a list of lines.
- The gate's error message texts are not modelled; the outcome is `NotFound`.
- The Streamlit page is not modelled: title, text input, success message and data frame display.
- The matplotlib histogram is not modelled.
- The Excel export is not modelled beyond the sheet names (`Frequenze`, `Rapporti`, `Grafico`) and the download's file name. This covers openpyxl and the image inserted into the chart sheet. The file name in the code is `{ac}_analisi_amminoacidica.xlsx`, and the model follows the code.
- Frequencies and ratios are exact rationals (`real`), not IEEE doubles, so rounding is not modelled.
- Ratios.Ratio: Python returns the integer `0`, not the float `0.0`, when the denominator is absent. The two are the same number. The model does not distinguish them.
- Sorting.Sort: pandas' `sort_values` uses quicksort, which is not stable. The model sorts by insertion. Residues are unique, so every correct sort gives the same table (`Sorting.SortedUnique`).
- Strings compare by code point, and so do Dafny characters; residues are single characters, so the residue order is character order.
- app.py is not part of this model.
