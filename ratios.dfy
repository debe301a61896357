/** The five residue ratios of the script with ratios: each is the count of the
    first residue over the count of the second, and 0 when the second residue
    does not occur. */
module Ratios {
  import opened Composition

  /** The ratio of a's count to b's count. The guard reads b's count with
      default 0; the division reads it with default 1, which is never used,
      since the division is reached only when b is a key. */
  function Ratio(counts: map<char, nat>, a: char, b: char): (r: real)
    ensures r >= 0.0
    ensures Get(counts, b) == 0 ==> r == 0.0
    ensures Get(counts, b) != 0 ==> r * Get(counts, b) as real == Get(counts, a) as real
  {
    if GetOr(counts, b, 0) != 0 then GetOr(counts, a, 0) as real / GetOr(counts, b, 1) as real
    else 0.0
  }

  /** A row of the ratio table: its label and its value. */
  datatype RatioEntry = RatioEntry(name: string, value: real)

  /** The residue pairs, in the order the table lists them. */
  const RatioPairs: seq<(char, char)> := [('E', 'Q'), ('E', 'P'), ('Y', 'F'), ('D', 'N'), ('G', 'S')]

  /** The label of a pair: numerator, slash, denominator. */
  function Label(p: (char, char)): (l: string)
    ensures |l| == 3 && l[0] == p.0 && l[1] == '/' && l[2] == p.1
  {
    [p.0, '/', p.1]
  }

  /** The ratio dict, in its literal order, as the rows of the ratio table. */
  function RatioTable(counts: map<char, nat>): (t: seq<RatioEntry>)
    ensures |t| == |RatioPairs|
    ensures forall i :: 0 <= i < |t| ==>
      t[i].name == Label(RatioPairs[i]) && t[i].value == Ratio(counts, RatioPairs[i].0, RatioPairs[i].1)
  {
    [ RatioEntry("E/Q", Ratio(counts, 'E', 'Q')),
      RatioEntry("E/P", Ratio(counts, 'E', 'P')),
      RatioEntry("Y/F", Ratio(counts, 'Y', 'F')),
      RatioEntry("D/N", Ratio(counts, 'D', 'N')),
      RatioEntry("G/S", Ratio(counts, 'G', 'S')) ]
  }

  /** The five labels are distinct, so the dict keeps five entries, and they do
      not depend on the counts. */
  lemma RatioLabels(counts: map<char, nat>, counts': map<char, nat>)
    ensures forall i, j :: 0 <= i < j < |RatioTable(counts)| ==>
      RatioTable(counts)[i].name != RatioTable(counts)[j].name
    ensures forall i :: 0 <= i < |RatioTable(counts)| ==>
      RatioTable(counts)[i].name == RatioTable(counts')[i].name
  {
    var t := RatioTable(counts);
    forall i, j | 0 <= i < j < |t| ensures t[i].name != t[j].name {
      assert t[i].name[0] != t[j].name[0] || t[i].name[2] != t[j].name[2];
    }
  }

  /** On the counts of a sequence, a ratio is the quotient of the two
      occurrence counts when b occurs, and 0 otherwise. */
  lemma RatioOfSequence(s: string, a: char, b: char)
    ensures b in s ==> Count(s, b) > 0 && Ratio(CountMap(s), a, b) == Count(s, a) as real / Count(s, b) as real
    ensures b !in s ==> Ratio(CountMap(s), a, b) == 0.0
  {
    CountMapSpec(s);
    CountPositive(s, a);
    CountPositive(s, b);
  }

  /** A ratio and its reverse multiply to 1 when both residues occur. */
  lemma RatioReciprocal(counts: map<char, nat>, a: char, b: char)
    requires Get(counts, a) != 0 && Get(counts, b) != 0
    ensures Ratio(counts, a, b) * Ratio(counts, b, a) == 1.0
  {
    var x, y := Get(counts, a) as real, Get(counts, b) as real;
    var r, q := Ratio(counts, a, b), Ratio(counts, b, a);
    assert r * y == x;
    assert q * x == y;
    assert (r * q) * (x * y) == (r * y) * (q * x);
    assert x * y > 0.0;
  }

  /** With two E, four Q and P present with count 0, the table opens with E/Q = 0.5 and E/P = 0. */
  lemma RatioExample()
    ensures RatioTable(map['E' := 2, 'Q' := 4, 'P' := 0])[0] == RatioEntry("E/Q", 0.5)
    ensures RatioTable(map['E' := 2, 'Q' := 4, 'P' := 0])[1] == RatioEntry("E/P", 0.0)
  {
  }
}
