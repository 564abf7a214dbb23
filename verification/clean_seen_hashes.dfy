/**
 `clean_seen_hashes`: trims a JSON object of seen hashes to its last
 `keep_last` entries in insertion order, rewriting the file only when it has
 more entries than that.

 The file is a parameter: `None` when it does not exist, otherwise the items
 of the `dict` that `json.load` builds, in insertion order. Their keys are
 distinct, since a repeated key in the file keeps only its last value.
 Reading, writing and the log lines are left out; the outcome says whether
 the file is rewritten and with what.
 */
module CleanSeenHashes {
  import opened Wrappers
  import opened Subsequences

  /** One key-value pair of a JSON object, in file order. */
  datatype Entry<V> = Entry(key: string, value: V)

  /** The keys of a list of entries are pairwise different, as in a `dict`. */
  predicate DistinctKeys<V>(xs: seq<Entry<V>>) {
    forall i, j :: 0 <= i < j < |xs| ==> xs[i].key != xs[j].key
  }

  function Min(a: int, b: int): int {
    if a <= b then a else b
  }

  /** Python's `xs[start:]` for any integer `start`: a negative start counts
      back from the end, and a start past either end is clamped to it. */
  function SliceFrom<T>(xs: seq<T>, start: int): (r: seq<T>)
    ensures IsSuffix(r, xs)
    ensures start >= 0 ==> |r| == |xs| - Min(start, |xs|)
    ensures start < 0 ==> |r| == Min(-start, |xs|)
  {
    var i := if start >= 0 then Min(start, |xs|) else |xs| - Min(-start, |xs|);
    xs[i..]
  }

  /** What one call does to the file. */
  datatype Outcome<V> =
    | NoFile                          // the file does not exist: nothing is written
    | NotCleaned                      // "No cleaning needed.": the file is left alone
    | Rewritten(entries: seq<Entry<V>>)  // the file is overwritten with these entries

  /** Lines 4-19: `clean_seen_hashes(file_path, keep_last)`. */
  function CleanSeenHashes<V>(file: Option<seq<Entry<V>>>, keepLast: int): (r: Outcome<V>)
    ensures file.None? <==> r.NoFile?
    ensures file.Some? && |file.value| <= keepLast ==> r.NotCleaned?
    ensures file.Some? && |file.value| > keepLast ==>
              r.Rewritten? && IsSuffix(r.entries, file.value)
  {
    match file
    case None => NoFile
    case Some(xs) =>
      if |xs| > keepLast then Rewritten(SliceFrom(xs, -keepLast)) else NotCleaned
  }

  /** The entries the file holds after the call, when it exists. */
  function Kept<V>(xs: seq<Entry<V>>, keepLast: int): (r: seq<Entry<V>>)
    ensures IsSuffix(r, xs)
  {
    match CleanSeenHashes(Some(xs), keepLast)
    case Rewritten(ys) => ys
    case _ => xs
  }

  /** For `keep_last >= 1` the file ends up holding its last
      `min(len, keep_last)` entries. */
  lemma KeepLast<V>(xs: seq<Entry<V>>, keepLast: int)
    requires keepLast >= 1
    ensures IsSuffix(Kept(xs, keepLast), xs)
    ensures |Kept(xs, keepLast)| == Min(|xs|, keepLast)
  {
  }

  /** A file with at most `keep_last` entries is neither changed nor
      rewritten. */
  lemma ShortFileUntouched<V>(xs: seq<Entry<V>>, keepLast: int)
    requires |xs| <= keepLast
    ensures CleanSeenHashes(Some(xs), keepLast) == NotCleaned
    ensures Kept(xs, keepLast) == xs
  {
  }

  /** `keep_last = 0` keeps every entry: the slice `[-0:]` is `[0:]`, so a
      non-empty file is rewritten with the same entries. */
  lemma KeepZeroKeepsAll<V>(xs: seq<Entry<V>>)
    ensures Kept(xs, 0) == xs
    ensures |xs| > 0 ==> CleanSeenHashes(Some(xs), 0) == Rewritten(xs)
  {
    assert xs[0..] == xs;
  }

  /** A negative `keep_last` drops the first `-keep_last` entries instead. */
  lemma KeepNegativeDropsFront<V>(xs: seq<Entry<V>>, keepLast: int)
    requires keepLast < 0
    ensures Kept(xs, keepLast) == xs[Min(-keepLast, |xs|)..]
  {
  }

  /** For `keep_last >= 0` cleaning twice is cleaning once, and for
      `keep_last >= 1` the second call does not rewrite the file. */
  lemma KeptIdempotent<V>(xs: seq<Entry<V>>, keepLast: int)
    requires keepLast >= 0
    ensures Kept(Kept(xs, keepLast), keepLast) == Kept(xs, keepLast)
    ensures keepLast >= 1 ==> CleanSeenHashes(Some(Kept(xs, keepLast)), keepLast) == NotCleaned
  {
    if keepLast == 0 {
      KeepZeroKeepsAll(xs);
      KeepZeroKeepsAll(Kept(xs, keepLast));
    }
  }

  /** With a negative `keep_last` a second call drops more: two entries and
      `keep_last = -1` leave one entry after the first call and none after
      the second. */
  lemma KeepNegativeNotIdempotent(a: Entry<int>, b: Entry<int>)
    ensures Kept([a, b], -1) == [b]
    ensures Kept(Kept([a, b], -1), -1) == []
  {
    KeepNegativeDropsFront([a, b], -1);
    assert [a, b][1..] == [b];
    KeepNegativeDropsFront([b], -1);
    assert [b][1..] == [];
  }

  /** The kept entries are the `dict` rebuilt from them: keys stay distinct
      and each keeps its value. */
  lemma KeptKeysDistinct<V>(xs: seq<Entry<V>>, keepLast: int)
    requires DistinctKeys(xs)
    ensures DistinctKeys(Kept(xs, keepLast))
    ensures forall e :: e in Kept(xs, keepLast) ==> e in xs
  {
    var ys := Kept(xs, keepLast);
    var d := |xs| - |ys|;
    assert forall i :: 0 <= i < |ys| ==> ys[i] == xs[d + i];
  }

  /** The evidently intended "keep the last N entries", for every `N >= 0`:
      the last `min(len, N)` entries, none at all for `N = 0`. */
  function KeepLastN<V>(xs: seq<Entry<V>>, n: nat): (r: seq<Entry<V>>)
    ensures IsSuffix(r, xs)
    ensures |r| == Min(|xs|, n)
  {
    xs[|xs| - Min(|xs|, n)..]
  }

  /** The call as written agrees with the intended trimming for every
      `keep_last >= 1`, and differs from it at `keep_last = 0` on every
      non-empty file. */
  lemma KeptMatchesKeepLastN<V>(xs: seq<Entry<V>>, keepLast: int)
    requires keepLast >= 0
    ensures keepLast >= 1 ==> Kept(xs, keepLast) == KeepLastN(xs, keepLast)
    ensures keepLast == 0 && |xs| > 0 ==> Kept(xs, keepLast) != KeepLastN(xs, keepLast)
  {
    if keepLast == 0 {
      KeepZeroKeepsAll(xs);
    }
  }
}
