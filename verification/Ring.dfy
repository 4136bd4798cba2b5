/** The order in which the round-robin selector probes the upstreams, and the shares it deals out. */
module Ring {
  import opened Arithmetic

  /** `nextIndex` is a uint64, so sums with it wrap here. */
  const WORD: nat := 0x1_0000_0000_0000_0000

  /** The index of the i-th probe of a selection that starts at `start`. */
  function Probe(start: nat, i: nat, n: nat): (j: nat)
    requires n > 0
    ensures j < n
  {
    ((start + i) % WORD) % n
  }

  /** Counters start, ..., start+k-1 and the probes made from them meet no harmful wrap-around. */
  ghost predicate NoSkew(start: nat, k: nat, n: nat)
    requires n > 0
  {
    start + k + n <= WORD + 1 || WORD % n == 0
  }

  ghost predicate VisitsAll(start: nat, n: nat)
    requires n > 0
  {
    forall j: nat | j < n :: Visits(start, n, j)
  }

  ghost predicate Visits(start: nat, n: nat, j: nat)
    requires n > 0
  {
    exists i: nat :: i < n && Probe(start, i, n) == j
  }

  lemma ModuloSum(x: int, y: int, n: int)
    requires n > 0
    ensures (x + y) % n == (x % n + y) % n
  {
    var z := x % n + y;
    assert x + y == n * (x / n) + z;
    assert x + y == n * (x / n) + (n * (z / n) + z % n);
    assert n * (x / n) + n * (z / n) == n * (x / n + z / n);
    QuotientIsUnique(x + y, n, x / n + z / n, z % n);
  }

  lemma SmallModulo(x: int, n: int)
    requires 0 <= x < n
    ensures x % n == x
  {
    QuotientIsUnique(x, n, 0, x);
  }

  /** Without harmful wrap-around the probe is the plain cyclic index. */
  lemma ProbeIsCyclic(start: nat, i: nat, n: nat)
    requires n > 0 && (start + i < WORD || (start + i < 2 * WORD && WORD % n == 0))
    ensures Probe(start, i, n) == (start + i) % n
  {
    var x := start + i;
    if x < WORD {
      SmallModulo(x, WORD);
    } else {
      QuotientIsUnique(x, WORD, 1, x - WORD);
      ModuloSum(WORD, x - WORD, n);
    }
  }

  /** The distance from p forward to j on a ring of n. */
  function Distance(p: int, j: int, n: int): (d: nat)
    requires n > 0
    ensures d < n
  {
    (j - p) % n
  }

  lemma DistanceReaches(p: int, j: int, n: int)
    requires n > 0 && 0 <= j < n
    ensures (p + Distance(p, j, n)) % n == j
  {
    var d := Distance(p, j, n);
    var q := (j - p) / n;
    assert j - p == n * q + d;
    assert p + d == n * (-q) + j;
    QuotientIsUnique(p + d, n, -q, j);
  }

  lemma DistanceIsTheOnlyOffset(p: int, i: nat, n: int)
    requires n > 0 && i < n
    ensures Distance(p, (p + i) % n, n) == i
  {
    var q := (p + i) / n;
    assert (p + i) % n - p == n * (-q) + i;
    QuotientIsUnique((p + i) % n - p, n, -q, i);
  }

  /**
   * A selection probes every upstream exactly when the probes do not wrap around 2^64, or wrap without
   * effect because the number of upstreams divides 2^64.
   */
  lemma ProbesEveryUpstreamIff(start: nat, n: nat)
    requires start < WORD && 0 < n < WORD
    ensures VisitsAll(start, n) <==> start + n <= WORD || WORD % n == 0
  {
    if start + n <= WORD || WORD % n == 0 {
      forall j: nat | j < n ensures Visits(start, n, j) {
        var i := Distance(start, j, n);
        ProbeIsCyclic(start, i, n);
        DistanceReaches(start, j, n);
        assert i < n && Probe(start, i, n) == j;
      }
    } else {
      var j := SkippedIndex(start, n);
      assert !Visits(start, n, j);
    }
  }

  /** The other half: an upstream that a wrapping selection never probes. */
  lemma SkippedIndex(start: nat, n: nat) returns (j: nat)
    requires start < WORD && 0 < n < WORD && start + n > WORD && WORD % n != 0
    ensures j < n && forall i: nat | i < n :: Probe(start, i, n) != j
  {
    var k := WORD - start;
    var r := WORD % n;
    j := if r + k <= n then n - k else r;
    forall i: nat | i < n ensures Probe(start, i, n) != j {
      if i < k {
        BeforeTheWrap(start, i, n);
      } else {
        QuotientIsUnique(start + i, WORD, 1, i - k);
        SmallModulo(i - k, n);
      }
    }
  }

  /** Before the wrap the probes are the k indices that lead up to WORD mod n. */
  lemma BeforeTheWrap(start: nat, i: nat, n: nat)
    requires n > 0 && start + i < WORD && WORD - start - i <= n
    ensures var r, s := WORD % n, WORD - start - i;
      Probe(start, i, n) == if s <= r then r - s else r - s + n
  {
    var x, r, s := start + i, WORD % n, WORD - start - i;
    SmallModulo(x, WORD);
    var q := WORD / n;
    assert WORD == n * q + r;
    if s <= r {
      QuotientIsUnique(x, n, q, r - s);
    } else {
      OneMoreFactor(n, q - 1);
      QuotientIsUnique(x, n, q - 1, r - s + n);
    }
  }

  /** The index d places before j on a ring of n. */
  function Before(j: int, d: int, n: int): (i: nat)
    requires n > 0
    ensures i < n
  {
    (j - d) % n
  }

  /** The position of the first true entry, or the length if there is none. */
  function FirstHit(hits: seq<bool>): (i: nat)
    ensures i <= |hits|
    ensures i < |hits| ==> hits[i]
    ensures forall k | 0 <= k < i :: !hits[k]
  {
    if hits == [] || hits[0] then 0 else 1 + FirstHit(hits[1..])
  }

  lemma FirstHitIs(hits: seq<bool>, i: nat)
    requires i <= |hits| && (i < |hits| ==> hits[i]) && forall k | 0 <= k < i :: !hits[k]
    ensures FirstHit(hits) == i
  {
  }

  /** What the probes of one selection find. */
  ghost function Hits(avail: seq<bool>, start: nat): (hits: seq<bool>)
    requires avail != []
    ensures |hits| == |avail| && forall i | 0 <= i < |hits| :: hits[i] == avail[Probe(start, i, |avail|)]
  {
    seq(|avail|, i requires 0 <= i < |avail| => avail[Probe(start, i, |avail|)])
  }

  /** The upstream chosen when availability is fixed, or n if none is. */
  ghost function Chosen(avail: seq<bool>, start: nat): (j: nat)
    requires avail != []
  {
    var n := |avail|;
    var i := FirstHit(Hits(avail, start));
    if i == n then n else Probe(start, i, n)
  }

  /** Exactly the g upstreams just before j on the ring are unavailable (g is n-1 if all others are). */
  ghost predicate GapBefore(avail: seq<bool>, j: int, g: int)
    requires avail != []
  {
    var n := |avail|;
    && 0 <= g < n
    && (forall d | 1 <= d <= g :: !avail[Before(j, d, n)])
    && (g == n - 1 || avail[Before(j, g + 1, n)])
  }

  lemma {:induction false} GapExists(avail: seq<bool>, j: int, from: nat) returns (g: nat)
    requires avail != [] && from < |avail|
    requires forall d | 1 <= d <= from :: !avail[Before(j, d, |avail|)]
    ensures GapBefore(avail, j, g)
    decreases |avail| - from
  {
    if from == |avail| - 1 || avail[Before(j, from + 1, |avail|)] {
      g := from;
    } else {
      g := GapExists(avail, j, from + 1);
    }
  }

  lemma ProbeAndDistance(start: nat, i: nat, n: nat)
    requires i < n < WORD && start < WORD && NoSkew(start, 1, n)
    ensures Distance(start, Probe(start, i, n), n) == i
  {
    ProbeIsCyclic(start, i, n);
    DistanceIsTheOnlyOffset(start, i, n);
  }

  lemma ProbeBeforeTarget(start: nat, e: nat, j: nat, n: nat)
    requires j < n < WORD && start < WORD && NoSkew(start, 1, n) && e <= Distance(start, j, n)
    ensures Probe(start, Distance(start, j, n) - e, n) == Before(j, e, n)
  {
    var d := Distance(start, j, n);
    ProbeIsCyclic(start, d - e, n);
    DistanceReaches(start, j, n);
    ModuloSum(start + d, 0 - e, n);
  }

  /** From p the selector picks j exactly when it is available and no more than its gap ahead. */
  lemma ChosenIffWithinGap(avail: seq<bool>, start: nat, j: nat, g: nat)
    requires avail != [] && j < |avail| && GapBefore(avail, j, g)
    requires start < WORD && NoSkew(start, 1, |avail|) && |avail| < WORD
    ensures Chosen(avail, start) == j <==> avail[j] && Distance(start, j, |avail|) <= g
  {
    var n := |avail|;
    var hits := Hits(avail, start);
    var d := Distance(start, j, n);
    var i := FirstHit(hits);
    ProbeBeforeTarget(start, 0, j, n);
    SmallModulo(j, n);
    assert hits[d] == avail[j];
    if avail[j] && d <= g {
      forall k | 0 <= k < d ensures !hits[k] {
        ProbeBeforeTarget(start, d - k, j, n);
      }
    } else if avail[j] {
      ProbeBeforeTarget(start, g + 1, j, n);
      assert hits[d - (g + 1)];
      ProbeAndDistance(start, i, n);
    }
  }

  /** How often j is chosen by k selections from counter `start` on, availability being fixed. */
  ghost function TimesChosen(avail: seq<bool>, start: nat, k: nat, j: nat): nat
    requires avail != []
  {
    if k == 0 then 0
    else TimesChosen(avail, start, k - 1, j) + (if Chosen(avail, (start + k - 1) % WORD) == j then 1 else 0)
  }

  /** How many of the distances d, d-1, ..., 0, n-1, n-2, ... among the first k are at most g. */
  ghost function WithinGap(d: int, g: int, k: int, n: int): int {
    if k <= d + 1 then Max(0, Min(d, g) - d + k) else Min(d, g) + 1 + Max(0, g - n + k - d)
  }

  lemma DistanceShrinks(start: nat, t: nat, j: nat, n: nat)
    requires n > 0 && t < n
    ensures var d := Distance(start, j, n); Distance(start + t, j, n) == if t <= d then d - t else n + d - t
  {
    var d, q := Distance(start, j, n), (j - start) / n;
    assert j - start == n * q + d;
    if t <= d {
      QuotientIsUnique(j - start - t, n, q, d - t);
    } else {
      OneMoreFactor(n, q - 1);
      QuotientIsUnique(j - start - t, n, q - 1, n + d - t);
    }
  }

  lemma DistanceIgnoresWrap(c: nat, j: nat, n: nat)
    requires n > 0 && (c < WORD || WORD % n == 0)
    ensures Distance(c % WORD, j, n) == Distance(c, j, n)
  {
    if c < WORD {
      SmallModulo(c, WORD);
    } else {
      var w, q := WORD / n, c / WORD;
      var d, p := Distance(c, j, n), (j - c) / n;
      assert WORD * q == n * w * q == n * (w * q);
      assert n * (p + w * q) == n * p + n * (w * q);
      QuotientIsUnique(j - c % WORD, n, p + w * q, d);
    }
  }

  /** The counter wraps at 2^64; the choice is still the one within the gap of the unwrapped counter. */
  lemma ChosenAtCounter(avail: seq<bool>, start: nat, k: nat, j: nat, g: nat)
    requires avail != [] && j < |avail| && GapBefore(avail, j, g) && |avail| < WORD
    requires k > 0 && NoSkew(start, k, |avail|)
    ensures Chosen(avail, (start + k - 1) % WORD) == j <==> avail[j] && Distance(start + k - 1, j, |avail|) <= g
  {
    var c := start + k - 1;
    if c < WORD {
      SmallModulo(c, WORD);
    }
    ChosenIffWithinGap(avail, c % WORD, j, g);
    DistanceIgnoresWrap(c, j, |avail|);
  }

  lemma OneMoreDistance(d: nat, g: nat, k: nat, n: nat)
    requires d < n && g < n && 0 < k <= n
    ensures WithinGap(d, g, k, n)
         == WithinGap(d, g, k - 1, n) + (if (if k - 1 <= d then d - (k - 1) else n + d - (k - 1)) <= g then 1 else 0)
  {
  }

  lemma {:induction false} TimesChosenByDistance(avail: seq<bool>, start: nat, k: nat, j: nat, g: nat)
    requires avail != [] && j < |avail| && avail[j] && GapBefore(avail, j, g) && |avail| < WORD
    requires k <= |avail| && NoSkew(start, k, |avail|)
    ensures TimesChosen(avail, start, k, j) == WithinGap(Distance(start, j, |avail|), g, k, |avail|)
  {
    if k > 0 {
      TimesChosenByDistance(avail, start, k - 1, j, g);
      ChosenAtCounter(avail, start, k, j, g);
      DistanceShrinks(start, k - 1, j, |avail|);
      OneMoreDistance(Distance(start, j, |avail|), g, k, |avail|);
    }
  }

  /**
   * One round of n selections chooses an available upstream once, plus once for each unavailable upstream
   * just before it on the ring.
   */
  lemma ExactShare(avail: seq<bool>, start: nat, j: nat, g: nat)
    requires avail != [] && j < |avail| && GapBefore(avail, j, g) && |avail| < WORD
    requires NoSkew(start, |avail|, |avail|)
    ensures TimesChosen(avail, start, |avail|, j) == if avail[j] then 1 + g else 0
  {
    if avail[j] {
      TimesChosenByDistance(avail, start, |avail|, j, g);
    } else {
      NeverChosen(avail, start, |avail|, j, g);
    }
  }

  lemma {:induction false} NeverChosen(avail: seq<bool>, start: nat, k: nat, j: nat, g: nat)
    requires avail != [] && j < |avail| && !avail[j] && GapBefore(avail, j, g) && |avail| < WORD
    requires NoSkew(start, k, |avail|)
    ensures TimesChosen(avail, start, k, j) == 0
  {
    if k > 0 {
      NeverChosen(avail, start, k - 1, j, g);
      ChosenAtCounter(avail, start, k, j, g);
    }
  }

  lemma {:induction false} TimesChosenSplits(avail: seq<bool>, start: nat, k: nat, l: nat, j: nat)
    requires avail != []
    ensures TimesChosen(avail, start, k + l, j) == TimesChosen(avail, start, k, j) + TimesChosen(avail, start + k, l, j)
  {
    if l > 0 {
      TimesChosenSplits(avail, start, k, l - 1, j);
    }
  }

  /** c lies between `share` per full round and `share` per started round. */
  ghost predicate WithinShares(share: nat, k: nat, n: nat, c: nat)
    requires n > 0
  {
    share * (k / n) <= c <= share * ((k + n - 1) / n)
  }

  /** Over any k selections each available upstream gets its exact share per round, up to one round. */
  lemma {:induction false} ShareOverAnyRun(avail: seq<bool>, start: nat, k: nat, j: nat, g: nat)
    requires avail != [] && j < |avail| && avail[j] && GapBefore(avail, j, g) && |avail| < WORD
    requires NoSkew(start, k, |avail|)
    ensures WithinShares(1 + g, k, |avail|, TimesChosen(avail, start, k, j))
    decreases k
  {
    var n := |avail|;
    if k >= n {
      ShareOverAnyRun(avail, start + n, k - n, j, g);
      OneMoreRound(1 + g, k, n, TimesChosen(avail, start + n, k - n, j));
      RoundThenRest(avail, start, k, j, g);
    } else {
      TimesChosenByDistance(avail, start, k, j, g);
      PartOfARound(1 + g, k, n, TimesChosen(avail, start, k, j));
    }
  }

  lemma RoundThenRest(avail: seq<bool>, start: nat, k: nat, j: nat, g: nat)
    requires 0 < |avail| <= k && j < |avail| < WORD && avail[j] && GapBefore(avail, j, g)
    requires NoSkew(start, k, |avail|)
    ensures TimesChosen(avail, start, k, j) == 1 + g + TimesChosen(avail, start + |avail|, k - |avail|, j)
  {
    TimesChosenSplits(avail, start, |avail|, k - |avail|, j);
    ExactShare(avail, start, j, g);
  }

  lemma OneMoreRound(share: nat, k: nat, n: nat, c: nat)
    requires 0 < n <= k && WithinShares(share, k - n, n, c)
    ensures WithinShares(share, k, n, share + c)
  {
    var full, started := (k - n) / n, (k - 1) / n;
    QuotientOfLess(k, n);
    QuotientOfLess(k + n - 1, n);
    OneMoreFactor(share, full);
    OneMoreFactor(share, started);
    assert k / n == full + 1 && (k + n - 1) / n == started + 1 && (k - n) + n - 1 == k - 1;
  }

  lemma PartOfARound(share: nat, k: nat, n: nat, c: nat)
    requires k < n && c <= (if k == 0 then 0 else share)
    ensures WithinShares(share, k, n, c)
  {
    QuotientIsUnique(k, n, 0, k);
    if k > 0 {
      QuotientIsUnique(k + n - 1, n, 1, k - 1);
    }
  }

  /** c is floor(k/n) or ceil(k/n). */
  ghost predicate FloorOrCeiling(k: nat, n: nat, c: nat)
    requires n > 0
  {
    k / n <= c <= (k + n - 1) / n
  }

  /** How many of the numbers 0, ..., x-1 leave remainder j. */
  ghost function CountUpTo(x: int, j: int, n: int): int
    requires n > 0
  {
    (x - j + n - 1) / n
  }

  lemma OneMoreCounted(x: int, j: int, n: int)
    requires 0 <= j < n
    ensures CountUpTo(x + 1, j, n) == CountUpTo(x, j, n) + (if x % n == j then 1 else 0)
  {
    QuotientOfNext(x - j + n - 1, n);
    RemainderIs(x, j, n);
  }

  lemma QuotientOfNext(y: int, n: int)
    requires n > 0
    ensures (y + 1) / n == y / n + (if (y + 1) % n == 0 then 1 else 0)
  {
    var q, r := y / n, y % n;
    if r + 1 < n {
      QuotientIsUnique(y + 1, n, q, r + 1);
    } else {
      OneMoreFactor(n, q);
      QuotientIsUnique(y + 1, n, q + 1, 0);
    }
  }

  lemma RemainderIs(x: int, j: int, n: int)
    requires 0 <= j < n
    ensures (x - j + n) % n == 0 <==> x % n == j
  {
    var q, r := x / n, x % n;
    OneMoreFactor(n, q);
    if r >= j {
      QuotientIsUnique(x - j + n, n, q + 1, r - j);
    } else {
      QuotientIsUnique(x - j + n, n, q, r - j + n);
    }
  }

  lemma QuotientOfSum(a: int, k: nat, n: nat)
    requires n > 0
    ensures k / n <= (a + k) / n - a / n <= (k + n - 1) / n
  {
    var p, r, q, s := a / n, a % n, k / n, k % n;
    assert n * (p + q) == n * p + n * q;
    OneMoreFactor(n, p + q);
    OneMoreFactor(n, q);
    if r + s < n {
      QuotientIsUnique(a + k, n, p + q, r + s);
    } else {
      QuotientIsUnique(a + k, n, p + q + 1, r + s - n);
    }
    if s == 0 {
      QuotientIsUnique(k + n - 1, n, q, n - 1);
    } else {
      QuotientIsUnique(k + n - 1, n, q + 1, s - 1);
    }
  }

  /** The counter wraps without harm exactly when the number of upstreams divides 2^64. */
  lemma CounterRemainder(c: nat, n: nat)
    requires n > 0 && (c < WORD || WORD % n == 0)
    ensures (c % WORD) % n == c % n
  {
    if c < WORD {
      SmallModulo(c, WORD);
    } else {
      var w, q := WORD / n, c / WORD;
      assert WORD * q == n * w * q == n * (w * q);
      var p, m := (c % WORD) / n, (c % WORD) % n;
      assert n * (w * q + p) == n * (w * q) + n * p;
      QuotientIsUnique(c, n, w * q + p, m);
    }
  }

  lemma {:induction false} AllAvailableCount(avail: seq<bool>, start: nat, k: nat, j: nat)
    requires avail != [] && j < |avail| && (forall i | 0 <= i < |avail| :: avail[i])
    requires start + k <= WORD || WORD % |avail| == 0
    ensures TimesChosen(avail, start, k, j) == CountUpTo(start + k, j, |avail|) - CountUpTo(start, j, |avail|)
  {
    if k > 0 {
      var c, n := start + k - 1, |avail|;
      AllAvailableCount(avail, start, k - 1, j);
      OneMoreCounted(c, j, n);
      CounterRemainder(c, n);
      FirstHitIs(Hits(avail, c % WORD), 0);
      SmallModulo(c % WORD, WORD);
      assert Chosen(avail, c % WORD) == c % n;
    }
  }

  /**
   * With every upstream available, k selections give each of them floor(k/n) or ceil(k/n). Only the counters
   * themselves must not wrap harmfully, since every first probe succeeds.
   */
  lemma EvenShareWhenAllAvailable(avail: seq<bool>, start: nat, k: nat, j: nat)
    requires avail != [] && j < |avail| && (forall i | 0 <= i < |avail| :: avail[i])
    requires start + k <= WORD || WORD % |avail| == 0
    ensures FloorOrCeiling(k, |avail|, TimesChosen(avail, start, k, j))
  {
    var n := |avail|;
    AllAvailableCount(avail, start, k, j);
    QuotientOfSum(start - j + n - 1, k, n);
    assert start + k - j + n - 1 == (start - j + n - 1) + k;
  }

  /** The selection comes back empty-handed exactly when no upstream is available. */
  ghost predicate FindsAvailable(avail: seq<bool>, start: nat)
    requires avail != []
  {
    Chosen(avail, start) == |avail| <==> forall j | 0 <= j < |avail| :: !avail[j]
  }

  /** A selection finds an available upstream whenever there is one, exactly when its probes meet no skew. */
  lemma FindsAvailableIff(start: nat, n: nat)
    requires start < WORD && 0 < n < WORD
    ensures (forall avail: seq<bool> | |avail| == n :: FindsAvailable(avail, start))
            <==> start + n <= WORD || WORD % n == 0
  {
    if start + n <= WORD || WORD % n == 0 {
      ProbesEveryUpstreamIff(start, n);
      forall avail: seq<bool> | |avail| == n ensures FindsAvailable(avail, start) {
        var hits := Hits(avail, start);
        if Chosen(avail, start) == n {
          forall j: nat | j < n ensures !avail[j] {
            assert Visits(start, n, j);
            var i: nat :| i < n && Probe(start, i, n) == j;
            assert hits[i] == avail[j];
          }
        }
      }
    } else {
      var j := SkippedIndex(start, n);
      var avail := seq(n, i => i == j);
      var hits := Hits(avail, start);
      assert avail[j] && Chosen(avail, start) == n;
      assert !FindsAvailable(avail, start);
    }
  }

  /** Three upstreams and a counter at its last value: the third is never probed, so it is never chosen. */
  lemma WrapSkipsAnUpstream()
    ensures !VisitsAll(18_446_744_073_709_551_615, 3)
    ensures Chosen([false, false, true], WORD - 1) == 3
  {
    ProbesEveryUpstreamIff(WORD - 1, 3);
    var avail := [false, false, true];
    assert Probe(WORD - 1, 0, 3) == 0 && Probe(WORD - 1, 1, 3) == 0 && Probe(WORD - 1, 2, 3) == 1;
    var hits := Hits(avail, WORD - 1);
    assert !hits[0] && !hits[1] && !hits[2];
  }
}
