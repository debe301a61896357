/** The three analysis pipelines, one per script. Each receives the HTTP status
    and the lines of the response body, applies the retrieval gate and, when it
    passes, builds what the page shows. Fetching, rendering, the chart and the
    workbook are outside the model. */
module Apps {
  import opened Fasta
  import opened Display
  import opened Composition
  import opened Sorting
  import opened Table
  import opened Ratios

  /** The page either shows an analysis or the not-found error. */
  datatype Outcome<T> = Found(analysis: T) | NotFound

  /** What the script with ratios shows: the sequence, its preview, the
      three-column table and the ratio table. */
  datatype RatioReport = RatioReport(sequence: string, preview: string, table: seq<Row>, ratios: seq<RatioEntry>)

  /** What the script without ratios shows. */
  datatype CompositionReport = CompositionReport(sequence: string, preview: string, table: seq<Row>)

  /** What the earliest script shows: the table has no count column. */
  datatype FrequencyReport = FrequencyReport(sequence: string, preview: string, table: seq<FrequencyRow>)

  /** Names of the workbook's sheets: the composition table, the ratio table
      (only in the script with ratios) and the chart image. */
  const FrequencySheet: string := "Frequenze"
  const RatioSheet: string := "Rapporti"
  const ChartSheet: string := "Grafico"

  /** Suffix of the downloaded workbook's file name. */
  const ExportSuffix: string := "_analisi_amminoacidica.xlsx"

  /** The download's file name: the accession followed by the fixed suffix. */
  function ExportFileName(ac: string): (f: string)
    ensures |f| == |ac| + |ExportSuffix|
    ensures f[..|ac|] == ac && f[|ac|..] == ExportSuffix
  {
    ac + ExportSuffix
  }

  /** Counting and dividing: the frequency dict of the sequence together with
      the counts and their key order. */
  method MeasureComposition(sequence: string) returns (counts: map<char, nat>, order: seq<char>, freq: map<char, real>)
    ensures counts == CountMap(sequence) && order == FirstOccurrences(sequence)
    ensures |sequence| > 0 || counts == map[]
    ensures freq == Frequencies(counts, |sequence|)
  {
    counts, order := CountResidues(sequence);
    CountMapSpec(sequence);
    freq := Frequencies(counts, |sequence|);
  }

  /** The script with ratios: not found exactly when the gate fails; otherwise
      the parsed sequence, its preview, its sorted composition table (whose
      counts add up to the length and whose frequencies add up to 1 for a
      non-empty sequence) and the five ratios of its counts. */
  method AnalyzeWithRatios(status: int, lines: seq<string>) returns (r: Outcome<RatioReport>)
    ensures r.NotFound? <==> !Retrieved(status, lines)
    ensures r.Found? ==>
      var a := r.analysis;
      a.sequence == ParseSequence(lines) && a.preview == Preview(a.sequence)
      && a.table == CompositionOf(a.sequence)
      && StrictlySorted(a.table, RowResidue)
      && TotalCount(a.table) == |a.sequence|
      && (|a.sequence| > 0 ==> TotalFrequency(a.table) == 1.0)
      && a.ratios == RatioTable(CountMap(a.sequence))
  {
    if !Retrieved(status, lines) {
      return NotFound;
    }
    var sequence := ParseSequence(lines);
    var counts, order, freq := MeasureComposition(sequence);
    var table := CompositionTable(order, counts, freq);
    CompositionOfSequence(sequence);
    r := Found(RatioReport(sequence, Preview(sequence), table, RatioTable(counts)));
  }

  /** The script without ratios: the same gate, sequence, preview and table. */
  method AnalyzeWithoutRatios(status: int, lines: seq<string>) returns (r: Outcome<CompositionReport>)
    ensures r.NotFound? <==> !Retrieved(status, lines)
    ensures r.Found? ==>
      var a := r.analysis;
      a.sequence == ParseSequence(lines) && a.preview == Preview(a.sequence)
      && a.table == CompositionOf(a.sequence)
      && StrictlySorted(a.table, RowResidue)
      && TotalCount(a.table) == |a.sequence|
  {
    if !Retrieved(status, lines) {
      return NotFound;
    }
    var sequence := ParseSequence(lines);
    var counts, order, freq := MeasureComposition(sequence);
    CompositionOfSequence(sequence);
    r := Found(CompositionReport(sequence, Preview(sequence), CompositionTable(order, counts, freq)));
  }

  /** The earliest script: the same gate, sequence and preview, and the
      two-column table, which is the three-column one without its counts. */
  method AnalyzeOld(status: int, lines: seq<string>) returns (r: Outcome<FrequencyReport>)
    ensures r.NotFound? <==> !Retrieved(status, lines)
    ensures r.Found? ==>
      var a := r.analysis;
      a.sequence == ParseSequence(lines) && a.preview == Preview(a.sequence)
      && a.table == FrequencyTableOf(a.sequence)
      && a.table == DropCounts(CompositionOf(a.sequence))
      && StrictlySorted(a.table, FrequencyRowResidue)
  {
    if !Retrieved(status, lines) {
      return NotFound;
    }
    var sequence := ParseSequence(lines);
    var counts, order, freq := MeasureComposition(sequence);
    FrequencyTableIsProjection(sequence);
    FrequencyTableOfSequence(sequence);
    r := Found(FrequencyReport(sequence, Preview(sequence), FrequencyTable(order, freq)));
  }
}
