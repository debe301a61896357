/** Residue counting and relative frequencies. The Python dict the scripts
    build is modelled by a map together with the order in which its keys were
    first inserted (a dict iterates in insertion order). */
module Composition {

  /** Number of occurrences of c in s. */
  function Count(s: string, c: char): (n: nat)
    ensures n <= |s|
  {
    if s == [] then 0
    else Count(s[..|s| - 1], c) + (if s[|s| - 1] == c then 1 else 0)
  }

  /** The counts dict as a value: every residue of s mapped to its number of
      occurrences. */
  function CountMap(s: string): map<char, nat>
  {
    map c | c in s :: Count(s, c)
  }

  predicate Distinct(xs: seq<char>) {
    forall i, j :: 0 <= i < j < |xs| ==> xs[i] != xs[j]
  }

  /** The distinct residues of s in order of first occurrence: the key order of
      the dict the counting loop fills. */
  function FirstOccurrences(s: string): (keys: seq<char>)
    ensures Distinct(keys)
    ensures forall c :: c in keys <==> c in s
  {
    if s == [] then []
    else
      var t, x := s[..|s| - 1], s[|s| - 1];
      assert s == t + [x];
      if x in t then FirstOccurrences(t) else FirstOccurrences(t) + [x]
  }

  /** Python's dict.get(c, d): the entry under c, or d when c is not a key. */
  function GetOr(m: map<char, nat>, c: char, d: nat): nat {
    if c in m then m[c] else d
  }

  /** Python's dict.get(c, 0). */
  function Get(m: map<char, nat>, c: char): nat {
    GetOr(m, c, 0)
  }

  /** The sum of the values stored under keys, taken in that order. */
  function SumValues(keys: seq<char>, m: map<char, nat>): nat
    requires forall k :: k in keys ==> k in m
  {
    if keys == [] then 0 else SumValues(keys[..|keys| - 1], m) + m[keys[|keys| - 1]]
  }

  /** The counting loop: one pass over the sequence, each residue's entry is its
      previous value (0 when absent) plus one; a residue seen for the first time
      becomes the dict's newest key. */
  method CountResidues(s: string) returns (counts: map<char, nat>, order: seq<char>)
    ensures counts == CountMap(s)
    ensures order == FirstOccurrences(s)
  {
    counts, order := map[], [];
    for i := 0 to |s|
      invariant counts == CountMap(s[..i])
      invariant order == FirstOccurrences(s[..i])
    {
      var aa := s[i];
      assert s[..i + 1] == s[..i] + [aa];
      CountMapSnoc(s[..i], aa);
      if aa !in counts {
        order := order + [aa];
      }
      counts := counts[aa := Get(counts, aa) + 1];
    }
    assert s[..|s|] == s;
  }

  lemma CountSnoc(t: string, x: char, c: char)
    ensures Count(t + [x], c) == Count(t, c) + (if x == c then 1 else 0)
  {
    assert (t + [x])[..|t|] == t;
  }

  /** One loop step on the map: appending x increments x's entry and leaves
      every other entry alone. */
  lemma CountMapSnoc(t: string, x: char)
    ensures CountMap(t + [x]) == CountMap(t)[x := Get(CountMap(t), x) + 1]
  {
    var m, m' := CountMap(t), CountMap(t + [x]);
    forall c | c in m'
      ensures c in m[x := Get(m, x) + 1] && m'[c] == m[x := Get(m, x) + 1][c]
    {
      CountSnoc(t, x, c);
      if c != x {
        assert c in t;
      } else if x !in t {
        CountPositive(t, x);
      }
    }
    assert m'.Keys == m[x := Get(m, x) + 1].Keys;
  }

  /** A residue occurs in s exactly when its count is positive. */
  lemma {:induction false} CountPositive(s: string, c: char)
    ensures Count(s, c) > 0 <==> c in s
  {
    if s != [] {
      var t := s[..|s| - 1];
      assert s == t + [s[|s| - 1]];
      CountPositive(t, c);
    }
  }

  /** The keys of the counts are exactly the residues of s, and every value is
      that residue's occurrence count, between 1 and |s|. */
  lemma CountMapSpec(s: string)
    ensures forall c :: c in CountMap(s) <==> c in s
    ensures forall c :: c in CountMap(s) ==> CountMap(s)[c] == Count(s, c)
    ensures forall c :: c in CountMap(s) ==> 1 <= CountMap(s)[c] <= |s|
  {
    forall c | c in s ensures Count(s, c) >= 1 {
      CountPositive(s, c);
    }
  }

  /** SumValues only looks at the entries named by keys. */
  lemma {:induction false} SumValuesFrame(keys: seq<char>, m: map<char, nat>, m': map<char, nat>)
    requires forall k :: k in keys ==> k in m && k in m' && m[k] == m'[k]
    ensures SumValues(keys, m) == SumValues(keys, m')
  {
    if keys != [] {
      SumValuesFrame(keys[..|keys| - 1], m, m');
    }
  }

  /** Incrementing one entry that is listed once raises the sum by one. */
  lemma {:induction false} SumValuesIncrement(keys: seq<char>, m: map<char, nat>, x: char)
    requires Distinct(keys) && x in keys
    requires forall k :: k in keys ==> k in m
    ensures SumValues(keys, m[x := m[x] + 1]) == SumValues(keys, m) + 1
  {
    var init, last := keys[..|keys| - 1], keys[|keys| - 1];
    assert keys == init + [last];
    if last == x {
      assert x !in init;
      SumValuesFrame(init, m, m[x := m[x] + 1]);
    } else {
      SumValuesIncrement(init, m, x);
    }
  }

  /** The counts sum to the length of the sequence. */
  lemma {:induction false} CountsSumToLength(s: string)
    ensures SumValues(FirstOccurrences(s), CountMap(s)) == |s|
  {
    if s != [] {
      var t, x := s[..|s| - 1], s[|s| - 1];
      assert s == t + [x];
      CountsSumToLength(t);
      SumStep(t, x);
    }
  }

  /** One more residue adds one to the sum of the counts, whether it is new or
      already a key. */
  lemma SumStep(t: string, x: char)
    ensures SumValues(FirstOccurrences(t + [x]), CountMap(t + [x]))
         == SumValues(FirstOccurrences(t), CountMap(t)) + 1
  {
    var s := t + [x];
    assert s[..|s| - 1] == t;
    CountMapSnoc(t, x);
    if x in t {
      SumStepSeen(t, x, CountMap(t), CountMap(s));
    } else {
      SumStepNew(t, x, CountMap(t), CountMap(s));
    }
  }

  lemma SumStepSeen(t: string, x: char, m: map<char, nat>, m': map<char, nat>)
    requires x in t && m == CountMap(t) && m' == m[x := m[x] + 1]
    requires FirstOccurrences(t + [x]) == FirstOccurrences(t)
    ensures forall k :: k in FirstOccurrences(t) ==> k in m && k in m'
    ensures SumValues(FirstOccurrences(t), m') == SumValues(FirstOccurrences(t), m) + 1
  {
    SumValuesIncrement(FirstOccurrences(t), m, x);
  }

  lemma SumStepNew(t: string, x: char, m: map<char, nat>, m': map<char, nat>)
    requires x !in t && m == CountMap(t) && m' == m[x := 1]
    ensures forall k :: k in FirstOccurrences(t) ==> k in m && k in m'
    ensures SumValues(FirstOccurrences(t) + [x], m') == SumValues(FirstOccurrences(t), m) + 1
  {
    var keys := FirstOccurrences(t);
    SumValuesFrame(keys, m, m');
    SumValuesSnoc(keys, x, m');
  }

  lemma SumValuesSnoc(keys: seq<char>, x: char, m: map<char, nat>)
    requires forall k :: k in keys ==> k in m
    requires x in m
    ensures SumValues(keys + [x], m) == SumValues(keys, m) + m[x]
  {
    assert (keys + [x])[..|keys|] == keys;
  }

  /** The frequency dict: every count divided by the total. Python evaluates the
      division only for keys present, so an empty dict needs no positive total. */
  function Frequencies(counts: map<char, nat>, total: nat): (freq: map<char, real>)
    requires total > 0 || counts == map[]
    ensures freq.Keys == counts.Keys
    ensures forall c :: c in freq ==> freq[c] * total as real == counts[c] as real
  {
    map c | c in counts :: counts[c] as real / total as real
  }

  /** The sum of the frequencies stored under keys, in that order. */
  function SumFrequencies(keys: seq<char>, freq: map<char, real>): real
    requires forall k :: k in keys ==> k in freq
  {
    if keys == [] then 0.0
    else SumFrequencies(keys[..|keys| - 1], freq) + freq[keys[|keys| - 1]]
  }

  /** Summing the frequencies is summing the counts, scaled by the total. */
  lemma {:induction false} SumFrequenciesScaled(keys: seq<char>, counts: map<char, nat>, total: nat)
    requires total > 0
    requires forall k :: k in keys ==> k in counts
    ensures SumFrequencies(keys, Frequencies(counts, total)) * total as real
         == SumValues(keys, counts) as real
  {
    if keys != [] {
      SumFrequenciesScaled(keys[..|keys| - 1], counts, total);
    }
  }

  /** The frequencies of a sequence: one per residue, each in (0, 1]; the empty
      sequence gives the empty dict, with no division performed. */
  lemma FrequenciesOfSequence(s: string)
    ensures Frequencies(CountMap(s), |s|).Keys == CountMap(s).Keys
    ensures |s| == 0 ==> Frequencies(CountMap(s), |s|) == map[]
    ensures forall c :: c in Frequencies(CountMap(s), |s|) ==>
      0.0 < Frequencies(CountMap(s), |s|)[c] <= 1.0
  {
    CountMapSpec(s);
    FrequencyBounds(CountMap(s), |s|);
  }

  /** Counts between 1 and the total give frequencies in (0, 1]. */
  lemma FrequencyBounds(counts: map<char, nat>, total: nat)
    requires total > 0 || counts == map[]
    requires forall c :: c in counts ==> 1 <= counts[c] <= total
    ensures forall c :: c in Frequencies(counts, total) ==>
      0.0 < Frequencies(counts, total)[c] <= 1.0
  {
    forall c | c in counts ensures 0.0 < Frequencies(counts, total)[c] <= 1.0 {
      QuotientBounds(counts[c] as real / total as real, counts[c] as real, total as real);
    }
  }

  /** For a non-empty sequence the frequencies sum to exactly 1. */
  lemma FrequenciesSumToOne(s: string)
    requires |s| > 0
    ensures SumFrequencies(FirstOccurrences(s), Frequencies(CountMap(s), |s|)) == 1.0
  {
    CountsSumToLength(s);
    SumToOne(FirstOccurrences(s), CountMap(s), |s|);
  }

  /** Keys whose counts make up the whole total have frequencies summing to 1. */
  lemma SumToOne(keys: seq<char>, counts: map<char, nat>, total: nat)
    requires total > 0
    requires forall k :: k in keys ==> k in counts
    requires SumValues(keys, counts) == total
    ensures SumFrequencies(keys, Frequencies(counts, total)) == 1.0
  {
    var sum := SumFrequencies(keys, Frequencies(counts, total));
    SumFrequenciesScaled(keys, counts, total);
    UnitFactor(sum, total, SumValues(keys, counts));
  }

  /** A factor that scales a positive total to itself is 1. */
  lemma UnitFactor(f: real, total: nat, v: nat)
    requires total > 0 && v == total
    requires f * total as real == v as real
    ensures f == 1.0
  {
    QuotientBounds(f, total as real, total as real);
  }

  /** A quotient of a count by a total at least as large lies in (0, 1], and is
      1 when the two are equal. */
  lemma QuotientBounds(f: real, count: real, total: real)
    requires 1.0 <= count <= total
    requires f * total == count
    ensures 0.0 < f <= 1.0
    ensures count == total ==> f == 1.0
  {
    ProductSign(f, total);
    ProductSign(f - 1.0, total);
    assert (f - 1.0) * total == f * total - total;
  }

  /** The sign of a product with a positive factor is the sign of the other. */
  lemma ProductSign(x: real, y: real)
    requires y > 0.0
    ensures x > 0.0 ==> x * y > 0.0
    ensures x < 0.0 ==> x * y < 0.0
    ensures x == 0.0 ==> x * y == 0.0
  {
  }
}
