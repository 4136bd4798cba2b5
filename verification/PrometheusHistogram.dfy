/**
 * The duration histograms of the text exposition format. `texts` stands for the bounds as they are printed,
 * in increasing order; the program's own list is LABELS.
 */
module PrometheusHistogram {
  import opened Text
  import opened Decimals
  import opened MetricsRegistry
  import opened Wrappers
  import opened LabelText

  /** The text of each bound, in seconds, as the shortest decimal. */
  const LABELS: seq<string> := [
    "0.001", "0.005", "0.01", "0.025", "0.05", "0.1", "0.25", "0.5", "1", "2.5", "5", "10"]

  const INFINITY := "+Inf"

  lemma LabelsAreDistinct()
    ensures |LABELS| == |BOUNDS| && NoRepeats(LABELS) && INFINITY !in LABELS
    ensures forall i, j | 0 <= i <= j < |BOUNDS| :: BOUNDS[i] <= BOUNDS[j]
  {
    forall i, j | 0 <= i < j < |LABELS| ensures LABELS[i] != LABELS[j] {
      LabelsDiffer(LABELS[i], LABELS[j], i, j);
    }
    assert forall l | l in LABELS :: l[0] != '+';
  }

  /** Two of the texts differ in length or in one of their first five characters. */
  lemma LabelsDiffer(a: string, b: string, i: nat, j: nat)
    requires i < j < |LABELS| && a == LABELS[i] && b == LABELS[j]
    ensures a != b
  {
    assert |a| != |b| || a[0] != b[0] || (|a| > 2 && a[2] != b[2]) || (|a| > 3 && a[3] != b[3])
        || (|a| > 4 && a[4] != b[4]);
  }

  lemma ReadOneDigit(s: string)
    requires |s| == 1 && '0' <= s[0] <= '9'
    ensures ReadDecimal(s) == Some(s[0] as int - '0' as int)
  {
  }

  lemma ReadTwoDigits(s: string)
    requires |s| == 2 && '0' <= s[0] <= '9' && '0' <= s[1] <= '9'
    ensures ReadDecimal(s) == Some(10 * (s[0] as int - '0' as int) + (s[1] as int - '0' as int))
  {
    ReadOneDigit(s[..1]);
  }

  lemma ReadThreeDigits(s: string)
    requires |s| == 3 && '0' <= s[0] <= '9' && '0' <= s[1] <= '9' && '0' <= s[2] <= '9'
    ensures ReadDecimal(s) == Some(100 * (s[0] as int - '0' as int) + 10 * (s[1] as int - '0' as int)
                                   + (s[2] as int - '0' as int))
  {
    ReadTwoDigits(s[..2]);
  }

  /** One digit, a point, and one to three digits. */
  lemma ReadsWithPoint(s: string)
    requires 3 <= |s| <= 5 && s[1] == '.' && '0' <= s[0] <= '9' && forall k | 2 <= k < |s| :: '0' <= s[k] <= '9'
    ensures ReadSeconds(s) == Some(1_000_000 * (1000 * (s[0] as int - '0' as int) + Milliseconds(s)))
  {
    var f := ReadsPlaces(s);
    ReadOneDigit(s[..1]);
    SecondsAtPoint(s, 1, s[0] as int - '0' as int, f);
  }

  lemma ReadsPlaces(s: string) returns (f: nat)
    requires 3 <= |s| <= 5 && forall k | 2 <= k < |s| :: '0' <= s[k] <= '9'
    ensures ReadDecimal(s[2..]) == Some(f) && f * PowerOfTen(11 - |s|) == 1_000_000 * Milliseconds(s)
  {
    SmallPowers();
    if |s| == 3 {
      ReadOneDigit(s[2..]);
    } else if |s| == 4 {
      ReadTwoDigits(s[2..]);
    } else {
      ReadThreeDigits(s[2..]);
    }
    f := ReadDecimal(s[2..]).value;
  }

  lemma SmallPowers()
    ensures PowerOfTen(6) == 1_000_000 && PowerOfTen(7) == 10_000_000 && PowerOfTen(8) == 100_000_000
  {
    assert PowerOfTen(3) == 1000;
  }

  /** The places of a text with a point as milliseconds. */
  function Milliseconds(s: string): nat
    requires 3 <= |s| <= 5 && forall k | 2 <= k < |s| :: '0' <= s[k] <= '9'
  {
    100 * (s[2] as int - '0' as int)
    + (if |s| > 3 then 10 * (s[3] as int - '0' as int) else 0)
    + (if |s| > 4 then s[4] as int - '0' as int else 0)
  }

  /** Three of the texts are whole seconds. */
  ghost predicate Whole(i: int) {
    i == 8 || i == 10 || i == 11
  }

  lemma PlacesOfText(s: string, bound: int, i: nat)
    requires i < |LABELS| && s == LABELS[i] && i < |BOUNDS| && bound == BOUNDS[i] && !Whole(i)
    ensures 3 <= |s| <= 5 && s[1] == '.' && '0' <= s[0] <= '9' && forall k | 2 <= k < |s| :: '0' <= s[k] <= '9'
    ensures bound == 1_000_000 * (1000 * (s[0] as int - '0' as int) + Milliseconds(s))
  {
  }

  lemma DigitsOfText(s: string, bound: int, i: nat)
    requires i < |LABELS| && s == LABELS[i] && i < |BOUNDS| && bound == BOUNDS[i] && Whole(i)
    ensures 1 <= |s| <= 2 && forall k | 0 <= k < |s| :: '0' <= s[k] <= '9'
    ensures bound == SECOND * (if |s| == 1 then s[0] as int - '0' as int
                               else 10 * (s[0] as int - '0' as int) + (s[1] as int - '0' as int))
  {
  }

  lemma TextReadsAs(s: string, bound: int, i: nat)
    requires i < |LABELS| && s == LABELS[i] && i < |BOUNDS| && bound == BOUNDS[i]
    ensures ReadSeconds(s) == Some(bound)
  {
    if Whole(i) {
      DigitsOfText(s, bound, i);
      if |s| == 1 {
        ReadOneDigit(s);
      } else {
        ReadTwoDigits(s);
      }
      WholeSeconds(s, bound / SECOND);
    } else {
      PlacesOfText(s, bound, i);
      ReadsWithPoint(s);
    }
  }

  /** Every text says in seconds what its bound is in nanoseconds. */
  lemma TextsReadAsBounds()
    ensures |LABELS| == |BOUNDS| && forall i | 0 <= i < |BOUNDS| :: ReadSeconds(LABELS[i]) == Some(BOUNDS[i])
  {
    forall i | 0 <= i < |BOUNDS| ensures ReadSeconds(LABELS[i]) == Some(BOUNDS[i]) {
      TextReadsAs(LABELS[i], BOUNDS[i], i);
    }
  }

  /** The position of a text among the bounds, or the number of bounds for any other text. */
  function BucketLabelValue(texts: seq<string>, l: string): (i: nat)
    ensures i <= |texts| && (i < |texts| ==> texts[i] == l)
    ensures i == |texts| ==> l !in texts
  {
    if texts == [] || texts[0] == l then 0 else 1 + BucketLabelValue(texts[1..], l)
  }

  /** The order in which bucket lines are printed. */
  function BucketOrder(texts: seq<string>): (string, string) -> bool {
    (a, b) => BucketLabelValue(texts, a) <= BucketLabelValue(texts, b)
  }

  datatype HistogramSnapshot = HistogramSnapshot(buckets: map<string, int>, sum: int, count: int)

  /** A snapshot of a bucket's histogram: one entry for each bound, and `+Inf` for all requests. */
  ghost predicate Snapshots(h: HistogramSnapshot, b: BucketValue, texts: seq<string>) {
    && |b.durationCounts| == |texts|
    && h.sum == b.totalLatency && h.count == b.requests
    && (forall l :: l in h.buckets <==> l in texts || l == INFINITY)
    && h.buckets[INFINITY] == b.requests
    && forall i | 0 <= i < |texts| :: h.buckets[texts[i]] == b.durationCounts[i]
  }

  method SnapshotHistogram(b: Bucket, texts: seq<string>) returns (h: HistogramSnapshot)
    requires |b.durationCounts| == |texts| && NoRepeats(texts) && INFINITY !in texts
    ensures Snapshots(h, b.Value(), texts)
  {
    var buckets: map<string, int> := map[];
    for i := 0 to |texts|
      invariant forall l :: l in buckets <==> l in texts[..i]
      invariant forall k | 0 <= k < i :: buckets[texts[k]] == b.durationCounts[k]
    {
      buckets := buckets[texts[i] := b.durationCounts[i]];
    }
    assert texts[..|texts|] == texts;
    buckets := buckets[INFINITY := b.requests];
    h := HistogramSnapshot(buckets, b.totalLatency, b.requests);
  }

  /** Map iteration is in no particular order. */
  method CollectBounds(buckets: map<string, int>) returns (labels: seq<string>)
    ensures NoRepeats(labels) && forall l :: l in labels <==> l in buckets && l != INFINITY
  {
    labels := [];
    var rest := buckets.Keys;
    while rest != {}
      invariant NoRepeats(labels)
      invariant forall l :: l in buckets && l != INFINITY <==> l in labels || (l in rest && l != INFINITY)
      invariant forall l | l in labels :: l !in rest
      decreases |rest|
    {
      var l :| l in rest;
      rest := rest - {l};
      if l != INFINITY {
        labels := labels + [l];
      }
    }
  }

  /** Whatever order the map was walked in, the bounds come out in increasing order with `+Inf` last. */
  method SortedHistogramBucketLabels(buckets: map<string, int>, texts: seq<string>) returns (labels: seq<string>)
    requires NoRepeats(texts) && INFINITY !in texts
    requires forall l :: l in buckets <==> l in texts || l == INFINITY
    ensures labels == texts + [INFINITY]
  {
    labels := CollectBounds(buckets);
    var order := BucketOrder(texts);
    var sorted := SortedBy(labels, order);
    SortedByIsSorted(labels, order);
    SortedByKeepsDistinct(labels, order);
    SameMembers(sorted, labels);
    BoundsInOrder(sorted, texts);
    labels := sorted + [INFINITY];
  }

  lemma {:induction false} AscendingGap(xs: seq<nat>, i: nat, j: nat)
    requires (forall k, l | 0 <= k < l < |xs| :: xs[k] < xs[l]) && i <= j < |xs|
    ensures xs[i] + (j - i) <= xs[j]
  {
    if i < j {
      AscendingGap(xs, i, j - 1);
    }
  }

  lemma BoundsInOrder(labels: seq<string>, texts: seq<string>)
    requires NoRepeats(texts) && NoRepeats(labels) && Sorted(labels, BucketOrder(texts))
    requires forall l :: l in labels <==> l in texts
    ensures labels == texts
  {
    var n := |labels|;
    SameSize(labels, texts);
    var places := seq(n, i requires 0 <= i < n => BucketLabelValue(texts, labels[i]));
    forall i | 0 <= i < n ensures labels[i] == texts[places[i]] && places[i] < n {
      assert labels[i] in texts;
    }
    forall i, j | 0 <= i < j < n ensures places[i] < places[j] {
      assert BucketOrder(texts)(labels[i], labels[j]) && labels[i] != labels[j];
    }
    forall i | 0 <= i < n ensures places[i] == i {
      AscendingGap(places, 0, i);
      AscendingGap(places, i, n - 1);
    }
  }

  lemma SameSize(xs: seq<string>, ys: seq<string>)
    requires NoRepeats(xs) && NoRepeats(ys) && forall x :: x in xs <==> x in ys
    ensures |xs| == |ys|
  {
    NoRepeatsByCount(xs);
    NoRepeatsByCount(ys);
    forall x ensures multiset(xs)[x] == multiset(ys)[x] {
      assert x in xs <==> x in ys;
      assert (x in multiset(xs) <==> x in xs) && (x in multiset(ys) <==> x in ys);
      assert multiset(xs)[x] <= 1 && multiset(ys)[x] <= 1;
    }
    assert multiset(xs) == multiset(ys);
    SameMembers(xs, ys);
  }

  /** One printed sample: metric name, label text and value. */
  datatype Sample = Sample(name: string, labels: string, value: int)

  ghost predicate IsSample(s: Sample, name: string, labels: map<string, string>, value: int) {
    s.name == name && s.value == value && IsLabelText(s.labels, labels)
  }

  method NewSample(name: string, labels: map<string, string>, value: int) returns (s: Sample)
    ensures IsSample(s, name, labels, value)
  {
    var text := FormatLabels(labels);
    s := Sample(name, text, value);
  }

  /** A line for each bound, a line for `+Inf`, the sum and the count. */
  ghost predicate PrintedFrom(lines: seq<Sample>, name: string, labels: map<string, string>, b: BucketValue,
                              texts: seq<string>)
  {
    var n := |texts|;
    && |lines| == n + 3 && |b.durationCounts| == n
    && (forall i | 0 <= i < n :: IsSample(lines[i], name + "_bucket", labels["le" := texts[i]], b.durationCounts[i]))
    && IsSample(lines[n], name + "_bucket", labels["le" := INFINITY], b.requests)
    && IsSample(lines[n + 1], name + "_sum", labels, b.totalLatency)
    && IsSample(lines[n + 2], name + "_count", labels, b.requests)
  }

  method WriteHistogram(name: string, labels: map<string, string>, histogram: HistogramSnapshot,
                        texts: seq<string>, ghost b: BucketValue) returns (lines: seq<Sample>)
    requires NoRepeats(texts) && INFINITY !in texts && Snapshots(histogram, b, texts)
    ensures PrintedFrom(lines, name, labels, b, texts)
  {
    var bounds := SortedHistogramBucketLabels(histogram.buckets, texts);
    lines := [];
    for i := 0 to |bounds|
      invariant |lines| == i
      invariant forall k | 0 <= k < i ::
          IsSample(lines[k], name + "_bucket", labels["le" := bounds[k]], histogram.buckets[bounds[k]])
    {
      var line := NewSample(name + "_bucket", labels["le" := bounds[i]], histogram.buckets[bounds[i]]);
      lines := lines + [line];
    }
    var sum := NewSample(name + "_sum", labels, histogram.sum);
    var count := NewSample(name + "_count", labels, histogram.count);
    lines := lines + [sum, count];
  }

  /** The printed lines form a histogram of the log over these bounds. */
  ghost predicate IsHistogramOf(lines: seq<Sample>, name: string, labels: map<string, string>, log: seq<Record>,
                                bounds: seq<int>, texts: seq<string>)
  {
    var n := |bounds|;
    && |lines| == n + 3 && |texts| == n
    && (forall i | 0 <= i < n ::
          IsSample(lines[i], name + "_bucket", labels["le" := texts[i]], Sum(log, AtMost(bounds[i]))))
    && IsSample(lines[n], name + "_bucket", labels["le" := INFINITY], |log|)
    && (forall i, j | 0 <= i <= j <= n :: lines[i].value <= lines[j].value)
    && IsSample(lines[n + 1], name + "_sum", labels, Sum(log, Latency()))
    && IsSample(lines[n + 2], name + "_count", labels, lines[n].value)
  }

  lemma LineValue(lines: seq<Sample>, name: string, labels: map<string, string>, b: BucketValue, texts: seq<string>,
                  i: nat)
    requires PrintedFrom(lines, name, labels, b, texts) && i <= |texts|
    ensures lines[i].value == (b.durationCounts + [b.requests])[i]
  {
  }

  lemma CountsAscend(lines: seq<Sample>, name: string, labels: map<string, string>, b: BucketValue, texts: seq<string>)
    requires PrintedFrom(lines, name, labels, b, texts)
    requires var c := b.durationCounts;
      (forall i, j | 0 <= i <= j < |c| :: c[i] <= c[j]) && forall i | 0 <= i < |c| :: c[i] <= b.requests
    ensures forall i, j | 0 <= i <= j <= |texts| :: lines[i].value <= lines[j].value
  {
    var c := b.durationCounts + [b.requests];
    forall i | 0 <= i <= |texts| ensures lines[i].value == c[i] {
      LineValue(lines, name, labels, b, texts, i);
    }
  }

  lemma PrintedIsHistogram(lines: seq<Sample>, name: string, labels: map<string, string>, log: seq<Record>,
                           bounds: seq<int>, texts: seq<string>, b: BucketValue)
    requires forall i, j | 0 <= i <= j < |bounds| :: bounds[i] <= bounds[j]
    requires PrintedFrom(lines, name, labels, b, texts) && b == Summary(bounds, log)
    ensures IsHistogramOf(lines, name, labels, log, bounds, texts)
  {
    CountsAreCumulative(bounds, log);
    CountsAscend(lines, name, labels, b, texts);
    forall i | 0 <= i < |bounds|
      ensures IsSample(lines[i], name + "_bucket", labels["le" := texts[i]], Sum(log, AtMost(bounds[i])))
    {
      assert b.durationCounts[i] == Sum(log, AtMost(bounds[i]));
    }
  }

  /**
   * The line whose `le` text reads as x nanoseconds counts the latencies at most x, and the lines come in increasing
   * x.
   */
  ghost predicate CountsAsLabelled(lines: seq<Sample>, name: string, labels: map<string, string>, log: seq<Record>,
                                   texts: seq<string>)
  {
    && |lines| == |texts| + 3
    && (forall i | 0 <= i < |texts| :: CountsItsText(lines[i], name, labels, log, texts[i]))
    && (forall i, j | 0 <= i < j < |texts| :: SmallerText(texts[i], texts[j]))
  }

  ghost predicate CountsItsText(line: Sample, name: string, labels: map<string, string>, log: seq<Record>,
                                text: string)
  {
    && ReadSeconds(text).Some?
    && IsSample(line, name + "_bucket", labels["le" := text], Sum(log, AtMost(ReadSeconds(text).value)))
  }

  ghost predicate SmallerText(a: string, b: string) {
    ReadSeconds(a).Some? && ReadSeconds(b).Some? && ReadSeconds(a).value < ReadSeconds(b).value
  }

  lemma HistogramCountsAsLabelled(lines: seq<Sample>, name: string, labels: map<string, string>, log: seq<Record>,
                                  bounds: seq<int>, texts: seq<string>)
    requires IsHistogramOf(lines, name, labels, log, bounds, texts)
    requires forall i | 0 <= i < |bounds| :: ReadSeconds(texts[i]) == Some(bounds[i])
    requires forall i, j | 0 <= i < j < |bounds| :: bounds[i] < bounds[j]
    ensures CountsAsLabelled(lines, name, labels, log, texts)
  {
    forall i | 0 <= i < |texts| ensures CountsItsText(lines[i], name, labels, log, texts[i]) {
      assert ReadSeconds(texts[i]) == Some(bounds[i]);
    }
    forall i, j | 0 <= i < j < |texts| ensures SmallerText(texts[i], texts[j]) {
      assert ReadSeconds(texts[i]) == Some(bounds[i]) && ReadSeconds(texts[j]) == Some(bounds[j]);
    }
  }

  /**
   * The histogram printed for a bucket is valid for every record history: a line for each bound, once, in
   * increasing order with `+Inf` last, counts that never decrease and count the latencies at most their
   * bound, and a `+Inf` line that equals `_count`.
   */
  method PrintHistogram(name: string, labels: map<string, string>, b: Bucket) returns (lines: seq<Sample>)
    requires b.Valid() && b.bounds == BOUNDS
    ensures IsHistogramOf(lines, name, labels, b.log, BOUNDS, LABELS)
    ensures CountsAsLabelled(lines, name, labels, b.log, LABELS)
  {
    LabelsAreDistinct();
    var h := SnapshotHistogram(b, LABELS);
    lines := WriteHistogram(name, labels, h, LABELS, b.Value());
    FoldedIsSummary(b.bounds, b.log);
    PrintedIsHistogram(lines, name, labels, b.log, b.bounds, LABELS, b.Value());
    TextsReadAsBounds();
    BoundsAscend();
    HistogramCountsAsLabelled(lines, name, labels, b.log, b.bounds, LABELS);
  }

  /** A reader gets back from the printed lines every bound, once and in order, and the labels of the route. */
  lemma PrintedLabelsAreReadBack(lines: seq<Sample>, name: string, labels: map<string, string>, log: seq<Record>,
                                 bounds: seq<int>, texts: seq<string>, i: nat)
    requires IsHistogramOf(lines, name, labels, log, bounds, texts) && i < |lines|
    requires forall n | n in labels :: LegalName(n)
    ensures ReadLabels(lines[i].labels)
         == Some(if i < |bounds| then labels["le" := texts[i]]
                 else if i == |bounds| then labels["le" := INFINITY] else labels)
  {
    assert LegalName("le");
    var printed := if i < |bounds| then labels["le" := texts[i]]
                   else if i == |bounds| then labels["le" := INFINITY] else labels;
    assert IsLabelText(lines[i].labels, printed) by {
      assert i > |bounds| ==> i == |bounds| + 1 || i == |bounds| + 2;
    }
    LabelsRoundTrip(lines[i].labels, printed);
  }
}
