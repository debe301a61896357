/** The composition tables: rows of residue, count and relative frequency in
    the scripts with ratios and without ratios, rows of residue and relative
    frequency in the earliest script; each sorted by residue code. */
module Table {
  import opened Composition
  import opened Sorting

  datatype Row = Row(residue: char, count: nat, frequency: real)

  /** A row of the two-column table, which has no count column. */
  datatype FrequencyRow = FrequencyRow(residue: char, frequency: real)

  function RowResidue(r: Row): char { r.residue }

  function FrequencyRowResidue(r: FrequencyRow): char { r.residue }

  /** The DataFrame before sorting. Its three columns are the dicts' keys, the
      counts' values and the frequencies' values, all in the same insertion
      order, so row i pairs the i-th residue with its own count and frequency. */
  function Rows(order: seq<char>, counts: map<char, nat>, freq: map<char, real>): (rows: seq<Row>)
    requires forall c :: c in order ==> c in counts && c in freq
    ensures |rows| == |order|
    ensures forall i :: 0 <= i < |order| ==> rows[i] == Row(order[i], counts[order[i]], freq[order[i]])
  {
    if order == [] then []
    else Rows(order[..|order| - 1], counts, freq) + [Row(order[|order| - 1], counts[order[|order| - 1]], freq[order[|order| - 1]])]
  }

  /** The two-column DataFrame before sorting: residue and frequency, aligned
      the same way. */
  function FrequencyRows(order: seq<char>, freq: map<char, real>): (rows: seq<FrequencyRow>)
    requires forall c :: c in order ==> c in freq
    ensures |rows| == |order|
    ensures forall i :: 0 <= i < |order| ==> rows[i] == FrequencyRow(order[i], freq[order[i]])
  {
    if order == [] then []
    else FrequencyRows(order[..|order| - 1], freq) + [FrequencyRow(order[|order| - 1], freq[order[|order| - 1]])]
  }

  /** The three-column table sorted by residue. */
  function CompositionTable(order: seq<char>, counts: map<char, nat>, freq: map<char, real>): seq<Row>
    requires forall c :: c in order ==> c in counts && c in freq
  {
    Sort(Rows(order, counts, freq), RowResidue)
  }

  /** The two-column table sorted by residue. */
  function FrequencyTable(order: seq<char>, freq: map<char, real>): seq<FrequencyRow>
    requires forall c :: c in order ==> c in freq
  {
    Sort(FrequencyRows(order, freq), FrequencyRowResidue)
  }

  /** The three-column table the pipeline builds from a sequence. */
  function CompositionOf(s: string): seq<Row> {
    var counts := CountMap(s);
    CountMapSpec(s);
    CompositionTable(FirstOccurrences(s), counts, Frequencies(counts, |s|))
  }

  /** The two-column table the earliest script builds from a sequence. */
  function FrequencyTableOf(s: string): seq<FrequencyRow> {
    var counts := CountMap(s);
    CountMapSpec(s);
    FrequencyTable(FirstOccurrences(s), Frequencies(counts, |s|))
  }

  function TotalCount(rows: seq<Row>): nat {
    if rows == [] then 0 else rows[0].count + TotalCount(rows[1..])
  }

  function TotalFrequency(rows: seq<Row>): real {
    if rows == [] then 0.0 else rows[0].frequency + TotalFrequency(rows[1..])
  }

  function DropCount(r: Row): FrequencyRow {
    FrequencyRow(r.residue, r.frequency)
  }

  /** The table without its count column. */
  function DropCounts(rows: seq<Row>): (r: seq<FrequencyRow>)
    ensures |r| == |rows|
    ensures forall i :: 0 <= i < |rows| ==> r[i] == DropCount(rows[i])
  {
    if rows == [] then [] else [DropCount(rows[0])] + DropCounts(rows[1..])
  }

  lemma {:induction false} TotalsAppend(a: seq<Row>, b: seq<Row>)
    ensures TotalCount(a + b) == TotalCount(a) + TotalCount(b)
    ensures TotalFrequency(a + b) == TotalFrequency(a) + TotalFrequency(b)
  {
    if a == [] {
      assert a + b == b;
    } else {
      assert (a + b)[1..] == a[1..] + b;
      TotalsAppend(a[1..], b);
    }
  }

  /** The column totals do not depend on the order of the rows. */
  lemma {:induction false} TotalsPermutation(a: seq<Row>, b: seq<Row>)
    requires multiset(a) == multiset(b)
    ensures TotalCount(a) == TotalCount(b)
    ensures TotalFrequency(a) == TotalFrequency(b)
  {
    if a == [] {
      assert |b| == |multiset(b)| == 0;
    } else {
      var i := IndexOf(a[0], b);
      var rest := b[..i] + b[i + 1..];
      assert multiset(a[1..]) == multiset(rest) by {
        assert b == b[..i] + [b[i]] + b[i + 1..];
        assert a == [a[0]] + a[1..];
        assert multiset(b) == multiset(b[..i]) + multiset{b[i]} + multiset(b[i + 1..]);
        assert multiset(rest) == multiset(b[..i]) + multiset(b[i + 1..]);
        assert multiset(a) == multiset{a[0]} + multiset(a[1..]);
        assert multiset(rest) == multiset(b) - multiset{b[i]};
        assert multiset(a[1..]) == multiset(a) - multiset{a[0]};
      }
      TotalsPermutation(a[1..], rest);
      TotalsRemove(b, i);
    }
  }

  /** A position at which x occurs in b. */
  lemma IndexOf(x: Row, b: seq<Row>) returns (i: nat)
    requires x in multiset(b)
    ensures i < |b| && b[i] == x
  {
    i :| 0 <= i < |b| && b[i] == x;
  }

  /** Taking row i out lowers the totals by that row's entries. */
  lemma TotalsRemove(b: seq<Row>, i: nat)
    requires i < |b|
    ensures TotalCount(b) == b[i].count + TotalCount(b[..i] + b[i + 1..])
    ensures TotalFrequency(b) == b[i].frequency + TotalFrequency(b[..i] + b[i + 1..])
  {
    assert b == b[..i] + b[i..];
    TotalsAppend(b[..i], b[i..]);
    assert b[i..][1..] == b[i + 1..];
    TotalsAppend(b[..i], b[i + 1..]);
  }

  /** The totals of the unsorted rows are the sums over the dicts. */
  lemma {:induction false} TotalsOfRows(order: seq<char>, counts: map<char, nat>, freq: map<char, real>)
    requires forall c :: c in order ==> c in counts && c in freq
    ensures TotalCount(Rows(order, counts, freq)) == SumValues(order, counts)
    ensures TotalFrequency(Rows(order, counts, freq)) == SumFrequencies(order, freq)
  {
    if order != [] {
      var init := order[..|order| - 1];
      TotalsOfRows(init, counts, freq);
      var last := order[|order| - 1];
      TotalsAppend(Rows(init, counts, freq), [Row(last, counts[last], freq[last])]);
    }
  }

  /** The sorted three-column table over the dicts: one row per key, each row
      carrying its own residue's count and frequency, rows in ascending residue
      order, and column totals equal to the dicts' sums. */
  lemma CompositionTableSpec(order: seq<char>, counts: map<char, nat>, freq: map<char, real>)
    requires Distinct(order)
    requires forall c :: c in order ==> c in counts && c in freq
    ensures |CompositionTable(order, counts, freq)| == |order|
    ensures forall c :: c in order <==> c in Keys(CompositionTable(order, counts, freq), RowResidue)
    ensures forall r :: r in CompositionTable(order, counts, freq) ==>
      r.residue in order && r.count == counts[r.residue] && r.frequency == freq[r.residue]
    ensures forall i, j :: 0 <= i < j < |order| ==>
      CompositionTable(order, counts, freq)[i].residue < CompositionTable(order, counts, freq)[j].residue
    ensures TotalCount(CompositionTable(order, counts, freq)) == SumValues(order, counts)
    ensures TotalFrequency(CompositionTable(order, counts, freq)) == SumFrequencies(order, freq)
  {
    var rows := Rows(order, counts, freq);
    var t := CompositionTable(order, counts, freq);
    assert |t| == |rows| by {
      assert |multiset(t)| == |multiset(rows)|;
    }
    assert DistinctKeys(rows, RowResidue);
    SortSorted(rows, RowResidue);
    forall r | r in t ensures r in rows {
      assert r in multiset(rows);
    }
    forall r | r in rows ensures r.residue in order && r.count == counts[r.residue] && r.frequency == freq[r.residue] {
      var k :| 0 <= k < |rows| && rows[k] == r;
    }
    forall c | c in order ensures c in Keys(t, RowResidue) {
      var k :| 0 <= k < |order| && order[k] == c;
      assert rows[k] in multiset(t);
      var i :| 0 <= i < |t| && t[i] == rows[k];
      assert Keys(t, RowResidue)[i] == c;
    }
    forall c | c in Keys(t, RowResidue) ensures c in order {
      var i :| 0 <= i < |t| && Keys(t, RowResidue)[i] == c;
      assert t[i] in t;
    }
    TotalsPermutation(t, rows);
    TotalsOfRows(order, counts, freq);
  }

  /** The composition table of a sequence: one row per distinct residue, a
      residue appears exactly when it occurs in the sequence, every row holds
      that residue's own count and frequency, rows ascend by residue code, the
      counts add up to the length and, for a non-empty sequence, the frequencies
      to exactly 1. */
  lemma CompositionOfSequence(s: string)
    ensures |CompositionOf(s)| == |FirstOccurrences(s)|
    ensures forall c :: c in s <==> c in Keys(CompositionOf(s), RowResidue)
    ensures forall r :: r in CompositionOf(s) ==>
      r.count == Count(s, r.residue) && 1 <= r.count && 0.0 < r.frequency <= 1.0
      && r.frequency == r.count as real / |s| as real
    ensures forall i, j :: 0 <= i < j < |CompositionOf(s)| ==>
      CompositionOf(s)[i].residue < CompositionOf(s)[j].residue
    ensures TotalCount(CompositionOf(s)) == |s|
    ensures |s| > 0 ==> TotalFrequency(CompositionOf(s)) == 1.0
    ensures s == [] ==> CompositionOf(s) == []
  {
    var order, counts := FirstOccurrences(s), CountMap(s);
    CountMapSpec(s);
    var freq := Frequencies(counts, |s|);
    FrequenciesOfSequence(s);
    CompositionTableSpec(order, counts, freq);
    CountsSumToLength(s);
    if |s| > 0 {
      FrequenciesSumToOne(s);
    }
  }

  /** Dropping the count column commutes with inserting into sorted rows. */
  lemma {:induction false} DropCountsInsert(x: Row, xs: seq<Row>)
    ensures DropCounts(Insert(x, xs, RowResidue)) == Insert(DropCount(x), DropCounts(xs), FrequencyRowResidue)
  {
    if xs != [] && !(x.residue < xs[0].residue) {
      DropCountsInsert(x, xs[1..]);
      assert DropCounts(xs)[1..] == DropCounts(xs[1..]);
    }
  }

  /** Dropping the count column commutes with sorting. */
  lemma {:induction false} DropCountsSort(xs: seq<Row>)
    ensures DropCounts(Sort(xs, RowResidue)) == Sort(DropCounts(xs), FrequencyRowResidue)
  {
    if xs != [] {
      DropCountsSort(xs[1..]);
      DropCountsInsert(xs[0], Sort(xs[1..], RowResidue));
      assert DropCounts(xs)[1..] == DropCounts(xs[1..]);
    }
  }

  /** Over the same dicts, the two-column table is the three-column table
      without its count column. */
  lemma FrequencyTableProjection(order: seq<char>, counts: map<char, nat>, freq: map<char, real>)
    requires forall c :: c in order ==> c in counts && c in freq
    ensures FrequencyTable(order, freq) == DropCounts(CompositionTable(order, counts, freq))
  {
    var rows := Rows(order, counts, freq);
    DropCountsSort(rows);
    assert DropCounts(rows) == FrequencyRows(order, freq);
  }

  /** The earliest script's two-column table is the three-column table without
      its count column, so it has the same rows in the same order. */
  lemma FrequencyTableIsProjection(s: string)
    ensures FrequencyTableOf(s) == DropCounts(CompositionOf(s))
  {
    var counts := CountMap(s);
    CountMapSpec(s);
    FrequencyTableProjection(FirstOccurrences(s), counts, Frequencies(counts, |s|));
  }

  /** Dropping the count column keeps the residue column. */
  lemma DropCountsResidues(t: seq<Row>)
    ensures Keys(DropCounts(t), FrequencyRowResidue) == Keys(t, RowResidue)
  {
  }

  /** The two-column table of a sequence: one row per distinct residue, a residue
      appears exactly when it occurs, each frequency is that residue's count over
      the length, rows ascend by residue code. */
  lemma FrequencyTableOfSequence(s: string)
    ensures |FrequencyTableOf(s)| == |FirstOccurrences(s)|
    ensures forall c :: c in s <==> c in Keys(FrequencyTableOf(s), FrequencyRowResidue)
    ensures forall r :: r in FrequencyTableOf(s) ==>
      0.0 < r.frequency <= 1.0 && r.frequency == Count(s, r.residue) as real / |s| as real
    ensures forall i, j :: 0 <= i < j < |FrequencyTableOf(s)| ==>
      FrequencyTableOf(s)[i].residue < FrequencyTableOf(s)[j].residue
  {
    FrequencyTableIsProjection(s);
    CompositionOfSequence(s);
    var t := CompositionOf(s);
    DropCountsResidues(t);
    var t2 := DropCounts(t);
    forall r | r in t2
      ensures 0.0 < r.frequency <= 1.0 && r.frequency == Count(s, r.residue) as real / |s| as real
    {
      var i :| 0 <= i < |t2| && t2[i] == r;
      assert t[i] in t;
    }
  }
}
