/**
  The resampler's specification: how a buffer of |s| samples is stretched or
  shrunk by err entries.  The buffer is cut into err windows [e[i], e[i+1]);
  stretching copies each window and repeats its last sample once more,
  shrinking copies each window except its last sample.  Adjusted emits the
  windows one after the other, as the programs' copy loops do; AdjustedAt
  states the result sample by sample (Source names the input sample each
  output sample copies).  The lemmas hold for any cut; the programs cut at
  Edges(|s|, err), e[i] == i * |s| / err.
  Everything is stated for a source of any length, so that the output of a
  stretch can itself be shrunk.
*/
module Resample {
  import Algorithm

  // ---------------------------------------------------------------------
  // Window edges

  /** x / d for non-negative x, by repeated subtraction. */
  function Quot(x: nat, d: nat): nat
    requires d > 0
    decreases x
  {
    if x < d then 0 else 1 + Quot(x - d, d)
  }

  /** i * len, by repeated addition. */
  function Times(i: nat, len: nat): nat
  {
    if i == 0 then 0 else Times(i - 1, len) + len
  }

  /**
    Left edge of window i when len samples are cut into err windows: the
    exact value of the programs' float cursor `i * (len / err)`, rounded
    down, that is i * len / err (EdgeIsQuotient).  It is spelled with
    repeated addition and subtraction so that the proofs about edges stay
    linear.
  */
  function Edge(i: nat, len: nat, err: nat): nat
    requires err > 0
  {
    Quot(Times(i, len), err)
  }

  lemma {:induction false} QuotAdd(x: nat, m: nat, d: nat)
    requires d > 0
    ensures Quot(x + Times(m, d), d) == Quot(x, d) + m
  {
    if m > 0 {
      QuotAdd(x, m - 1, d);
      assert Quot(x + Times(m, d), d) == 1 + Quot(x + Times(m - 1, d), d);
    }
  }

  lemma {:induction false} QuotMono(a: nat, b: nat, d: nat)
    requires d > 0 && a <= b
    ensures Quot(a, d) <= Quot(b, d)
    decreases b
  {
    if a >= d {
      QuotMono(a - d, b - d, d);
    }
  }

  lemma {:induction false} TimesAdd(i: nat, a: nat, b: nat)
    ensures Times(i, a + b) == Times(i, a) + Times(i, b)
  {
    if i > 0 {
      TimesAdd(i - 1, a, b);
    }
  }

  lemma {:induction false} TimesIsMul(i: nat, len: nat)
    ensures Times(i, len) == i * len
  {
    if i > 0 {
      TimesIsMul(i - 1, len);
      assert (i - 1) * len + len == i * len;
    }
  }

  lemma MulAtLeast(k: int, d: int)
    requires k >= 1 && d > 0
    ensures d * k >= d
  {
  }

  lemma DivUnique(x: int, d: int, q: int, r: int)
    requires d > 0 && 0 <= r < d && x == q * d + r
    ensures x / d == q
  {
    var k := q - x / d;
    assert d * k == x % d - r;
    if k >= 1 {
      MulAtLeast(k, d);
    } else if k <= -1 {
      MulAtLeast(-k, d);
    }
  }

  lemma {:induction false} QuotIsDiv(x: nat, d: nat)
    requires d > 0
    ensures Quot(x, d) == x / d
    decreases x
  {
    if x < d {
      DivUnique(x, d, 0, x);
    } else {
      QuotIsDiv(x - d, d);
      var q, r := (x - d) / d, (x - d) % d;
      assert x == (q + 1) * d + r;
      DivUnique(x, d, q + 1, r);
    }
  }

  /** The window edge is the truncated quotient i * len / err. */
  lemma EdgeIsQuotient(i: nat, len: nat, err: nat)
    requires err > 0
    ensures Edge(i, len, err) == i * len / err
  {
    TimesIsMul(i, len);
    QuotIsDiv(i * len, err);
  }

  /** Every window holds at least one sample when there are no more windows than samples. */
  lemma EdgeStep(i: nat, len: nat, err: nat)
    requires 0 < err <= len
    ensures Edge(i, len, err) + 1 <= Edge(i + 1, len, err)
  {
    assert Times(1, err) == err;
    QuotAdd(Times(i, len), 1, err);
    QuotMono(Times(i, len) + err, Times(i + 1, len), err);
  }

  lemma {:induction false} EdgeMono(i: nat, j: nat, len: nat, err: nat)
    requires 0 < err <= len && i <= j
    ensures Edge(j, len, err) - Edge(i, len, err) >= j - i
    decreases j - i
  {
    if i < j {
      EdgeStep(i, len, err);
      EdgeMono(i + 1, j, len, err);
    }
  }

  lemma EdgeLast(len: nat, err: nat)
    requires err > 0
    ensures Edge(err, len, err) == len
  {
    TimesIsMul(err, len);
    TimesIsMul(len, err);
    QuotAdd(0, len, err);
  }

  /** Window edges of the stretched buffer are the source's edges shifted by one per earlier window. */
  lemma EdgeShift(i: nat, len: nat, err: nat)
    requires err > 0
    ensures Edge(i, len + err, err) == Edge(i, len, err) + i
  {
    TimesAdd(i, len, err);
    TimesIsMul(i, err);
    TimesIsMul(err, i);
    QuotAdd(Times(i, len), i, err);
  }

  /**
    e marks the edges of |e| - 1 windows [e[i], e[i+1]): it starts at 0 and
    every window holds at least one sample.  The quantifier is instantiated
    only where a proof names a Gap.
  */
  ghost predicate Ascending(e: seq<int>)
  {
    |e| >= 1 && e[0] == 0 &&
    forall i, j {:trigger Gap(e, i, j)} :: 0 <= i <= j < |e| ==> Gap(e, i, j) >= j - i
  }

  function Gap(e: seq<int>, i: nat, j: nat): int
    requires i <= j < |e|
  {
    e[j] - e[i]
  }

  /** e cuts len samples into windows. */
  ghost predicate IsCut(e: seq<int>, len: nat)
  {
    Ascending(e) && e[|e| - 1] == len
  }

  /** Edges 0 through k of err windows over len samples (EdgesUpToAt). */
  function EdgesUpTo(len: nat, err: nat, k: nat): (e: seq<int>)
    requires err > 0
    ensures |e| == k + 1
    decreases k
  {
    if k == 0 then [0] else EdgesUpTo(len, err, k - 1) + [Edge(k, len, err)]
  }

  lemma {:induction false} EdgesUpToAt(len: nat, err: nat, k: nat, i: nat)
    requires err > 0 && i <= k
    ensures EdgesUpTo(len, err, k)[i] == Edge(i, len, err)
    decreases k
  {
    if i < k {
      EdgesUpToAt(len, err, k - 1, i);
    }
  }

  /** The cut the programs use: err windows with edges i * len / err (EdgesAreQuotients). */
  function Edges(len: nat, err: nat): (e: seq<int>)
    requires 0 < err <= len
    ensures |e| == err + 1 && IsCut(e, len)
  {
    var e := EdgesUpTo(len, err, err);
    forall i, j | 0 <= i <= j < |e| ensures Gap(e, i, j) >= j - i {
      EdgesUpToAt(len, err, err, i);
      EdgesUpToAt(len, err, err, j);
      EdgeMono(i, j, len, err);
    }
    EdgesUpToAt(len, err, err, 0);
    EdgesUpToAt(len, err, err, err);
    EdgeLast(len, err);
    e
  }

  /** Window i of the cut starts at i * len / err, the integer part of the programs' cursor. */
  lemma EdgesAreQuotients(len: nat, err: nat)
    requires 0 < err <= len
    ensures forall i :: 0 <= i <= err ==> Edges(len, err)[i] == i * len / err
  {
    forall i | 0 <= i <= err ensures Edges(len, err)[i] == i * len / err {
      EdgesUpToAt(len, err, err, i);
      EdgeIsQuotient(i, len, err);
    }
  }

  /** Each edge moved right by the number of windows before it. */
  function Shift(e: seq<int>): (e': seq<int>)
    ensures |e'| == |e| && forall i :: 0 <= i < |e| ==> e'[i] == e[i] + i
    decreases |e|
  {
    if e == [] then [] else Shift(e[..|e| - 1]) + [e[|e| - 1] + (|e| - 1)]
  }

  /** Stretching by err moves the edges of the longer buffer exactly as Shift says. */
  lemma StretchedEdges(len: nat, err: nat)
    requires 0 < err <= len
    ensures Edges(len + err, err) == Shift(Edges(len, err))
  {
    forall i | 0 <= i <= err ensures Edges(len + err, err)[i] == Shift(Edges(len, err))[i] {
      EdgesUpToAt(len + err, err, err, i);
      EdgesUpToAt(len, err, err, i);
      EdgeShift(i, len, err);
    }
  }

  // ---------------------------------------------------------------------
  // Windows and the resampled buffer

  /** Number of output samples the first k windows produce. */
  function OutLen(e: seq<int>, add: bool, k: nat): int
    requires k < |e|
  {
    if add then e[k] + k else e[k] - k
  }

  /**
    The source sample that output sample p copies when p lies in window i:
    the stretch copies sample p - i (and in the window's extra last slot
    repeats sample e[i + 1] - 1), the shrink copies sample p + i.
  */
  function InWindow(e: seq<int>, add: bool, i: nat, p: int): (q: int)
    requires Ascending(e) && i < |e| - 1 && OutLen(e, add, i) <= p < OutLen(e, add, i + 1)
    ensures e[i] <= q < e[i + 1]
  {
    assert Gap(e, i, i + 1) >= 1;
    if add then (if p - i < e[i + 1] then p - i else e[i + 1] - 1) else p + i
  }

  /**
    The source sample that output sample p copies, when the first k windows
    are emitted one after the other.
  */
  function Source(e: seq<int>, add: bool, k: nat, p: int): (q: int)
    requires Ascending(e) && k < |e| && 0 <= p < OutLen(e, add, k)
    ensures 0 <= q < e[k]
    decreases k
  {
    assert Gap(e, 0, k) >= k;
    var i := k - 1;
    assert Gap(e, 0, i) >= i && Gap(e, i, k) >= 1;
    if p < OutLen(e, add, i) then Source(e, add, i, p) else InWindow(e, add, i, p)
  }

  /**
    What window i contributes, as the programs copy it: stretching copies
    s[e[i]..e[i+1]] and repeats its last sample, shrinking copies it without
    its last sample.
  */
  function Window<T>(s: seq<T>, e: seq<int>, add: bool, i: nat): (w: seq<T>)
    requires IsCut(e, |s|) && i < |e| - 1
    ensures |w| == e[i + 1] - e[i] + (if add then 1 else -1)
  {
    assert Gap(e, 0, i) >= i && Gap(e, i, i + 1) >= 1 && Gap(e, i + 1, |e| - 1) >= 0;
    var c, n := e[i], e[i + 1];
    if add then s[c..n] + [s[n - 1]] else s[c..n - 1]
  }

  /**
    The output of the first k windows, emitted one after the other; sample
    by sample it is described by Source (AdjustedAt).
  */
  function Adjusted<T>(s: seq<T>, e: seq<int>, add: bool, k: nat): (r: seq<T>)
    requires IsCut(e, |s|) && k < |e|
    ensures |r| == OutLen(e, add, k)
    decreases k
  {
    if k == 0 then [] else Adjusted(s, e, add, k - 1) + Window(s, e, add, k - 1)
  }

  /** The buffer of |s| samples brought to goal samples. */
  function Resampled<T>(s: seq<T>, goal: nat): (r: seq<T>)
    requires goal <= 2 * |s|
    ensures |r| == goal
    ensures goal == |s| ==> r == s
  {
    if goal == |s| then s
    else if goal > |s| then Adjusted(s, Edges(|s|, goal - |s|), true, goal - |s|)
    else Adjusted(s, Edges(|s|, |s| - goal), false, |s| - goal)
  }

  /** Output sample p of the first k windows copies source sample Source(e, add, k, p). */
  lemma {:induction false} AdjustedAt<T>(s: seq<T>, e: seq<int>, add: bool, k: nat, p: int)
    requires IsCut(e, |s|) && k < |e| && 0 <= p < OutLen(e, add, k)
    ensures Gap(e, k, |e| - 1) >= 0
    ensures Adjusted(s, e, add, k)[p] == s[Source(e, add, k, p)]
    decreases k
  {
    var i := k - 1;
    assert Gap(e, 0, k) >= k && Gap(e, 0, i) >= i && Gap(e, i, k) >= 1 && Gap(e, k, |e| - 1) >= 0;
    if p < OutLen(e, add, i) {
      AdjustedAt(s, e, add, i, p);
    } else {
      var w := Window(s, e, add, i);
      assert Adjusted(s, e, add, k) == Adjusted(s, e, add, i) + w;
      assert w[p - OutLen(e, add, i)] == s[InWindow(e, add, i, p)];
    }
  }

  /**
    The copy loop's step, sample by sample: an output holding the first i
    windows, followed by window i written at its place, holds the first
    i + 1 windows.
  */
  lemma WindowStep<T>(s: seq<T>, e: seq<int>, add: bool, i: nat, out: seq<T>)
    requires IsCut(e, |s|) && i < |e| - 1 && 0 <= e[i] < e[i + 1] <= |s|
    requires 0 <= OutLen(e, add, i) <= OutLen(e, add, i + 1) <= |out|
    requires forall p :: 0 <= p < OutLen(e, add, i) ==> out[p] == s[Source(e, add, i, p)]
    requires forall p :: OutLen(e, add, i) <= p < OutLen(e, add, i + 1) ==> out[p] == s[InWindow(e, add, i, p)]
    ensures forall p :: 0 <= p < OutLen(e, add, i + 1) ==> out[p] == s[Source(e, add, i + 1, p)]
  {
  }

  /**
    One pass of the programs' copy loop: window i of the cut copied from
    data to its place in output with `std::copy_n`, its last sample written
    once more when stretching; no other output sample is touched.
  */
  method CopyWindow<T>(data: array<T>, e: seq<int>, add: bool, i: nat, output: array<T>)
    requires data != output && IsCut(e, data.Length) && i < |e| - 1
    requires OutLen(e, add, |e| - 1) <= output.Length
    modifies output
    ensures 0 <= e[i] < e[i + 1] <= data.Length && 0 <= OutLen(e, add, i) <= OutLen(e, add, i + 1) <= output.Length
    ensures forall p :: OutLen(e, add, i) <= p < OutLen(e, add, i + 1) ==> output[p] == data[InWindow(e, add, i, p)]
    ensures forall p :: 0 <= p < output.Length && !(OutLen(e, add, i) <= p < OutLen(e, add, i + 1)) ==>
      output[p] == old(output[p])
  {
    var c, n := e[i], e[i + 1];
    assert Gap(e, 0, i) >= i && Gap(e, i, i + 1) >= 1 && Gap(e, i + 1, |e| - 1) >= |e| - 1 - (i + 1);
    if add {
      Algorithm.CopyN(data, c, n - c, output, c + i);
      output[n + i] := output[n - 1 + i];
    } else {
      Algorithm.CopyN(data, c, n - c - 1, output, c - i);
    }
  }

  /**
    The programs' copy loop: the windows of cut e copied one after the
    other, so that output sample p copies source sample Source(e, add, k, p)
    for each of the k windows; output samples past the copied ones are left
    alone.
  */
  method CopyWindows<T>(data: array<T>, e: seq<int>, add: bool, k: nat, output: array<T>)
    requires data != output && IsCut(e, data.Length) && k == |e| - 1
    requires OutLen(e, add, k) <= output.Length
    modifies output
    ensures forall p :: 0 <= p < OutLen(e, add, k) ==> output[p] == data[Source(e, add, k, p)]
    ensures forall p :: 0 <= p < output.Length && OutLen(e, add, k) <= p ==> output[p] == old(output[p])
  {
    ghost var s := data[..];
    assert Gap(e, 0, k) >= k;
    for i := 0 to k
      invariant e[i] <= |s| && 0 <= OutLen(e, add, i) <= OutLen(e, add, k)
      invariant forall p :: 0 <= p < OutLen(e, add, i) ==> output[p] == s[Source(e, add, i, p)]
      invariant forall p :: OutLen(e, add, i) <= p < output.Length ==> output[p] == old(output[p])
    {
      CopyWindow(data, e, add, i, output);
      assert Gap(e, i + 1, k) >= k - (i + 1);
      WindowStep(s, e, add, i, output[..]);
    }
  }

  /**
    After the copy loop: an output whose first samples copy the sources
    Source names for all err windows of the programs' cut holds the
    resampled buffer.
  */
  lemma CopiedIsResampled<T>(s: seq<T>, e: seq<int>, add: bool, err: nat, goal: nat, out: seq<T>)
    requires 0 < err <= |s| && e == Edges(|s|, err) && goal <= |out|
    requires goal == if add then |s| + err else |s| - err
    requires forall p :: 0 <= p < OutLen(e, add, err) ==> out[p] == s[Source(e, add, err, p)]
    ensures goal <= 2 * |s| && out[..goal] == Resampled(s, goal)
  {
    forall p | 0 <= p < goal ensures out[p] == Adjusted(s, e, add, err)[p] {
      AdjustedAt(s, e, add, err, p);
    }
    if add {
      ResampledIsStretch(s, goal);
    } else {
      ResampledIsShrink(s, goal, err);
    }
    assert out[..goal] == Adjusted(s, e, add, err);
  }

  /** Later windows never rewrite output samples already emitted. */
  lemma {:induction false} SourcePrefix(e: seq<int>, add: bool, k: nat, m: nat, p: int)
    requires Ascending(e) && k <= m < |e| && 0 <= p < OutLen(e, add, k)
    ensures p < OutLen(e, add, m) && Source(e, add, m, p) == Source(e, add, k, p)
    decreases m - k
  {
    assert Gap(e, k, m) >= m - k;
    if k < m {
      SourcePrefix(e, add, k, m - 1, p);
      assert Gap(e, m - 1, m) >= 1;
    }
  }

  /**
    Stretching: sample j of window i (e[i] <= j < e[i + 1]) is written at
    output j + i, and the window's last sample once more at e[i + 1] + i.
  */
  lemma StretchWindow(e: seq<int>, m: nat, i: nat, j: int)
    requires Ascending(e) && i < m < |e| && e[i] <= j <= e[i + 1]
    ensures 0 <= j + i < OutLen(e, true, m)
    ensures Source(e, true, m, j + i) == if j < e[i + 1] then j else j - 1
  {
    assert Gap(e, 0, i) >= i && Gap(e, i, i + 1) >= 1;
    SourcePrefix(e, true, i + 1, m, j + i);
  }

  /** Shrinking: sample j of window i, except the window's last, is written at output j - i. */
  lemma ShrinkWindow(e: seq<int>, m: nat, i: nat, j: int)
    requires Ascending(e) && i < m < |e| && e[i] <= j < e[i + 1] - 1
    ensures 0 <= j - i < OutLen(e, false, m)
    ensures Source(e, false, m, j - i) == j
  {
    assert Gap(e, 0, i) >= i && Gap(e, i, i + 1) >= 1;
    SourcePrefix(e, false, i + 1, m, j - i);
  }

  /**
    Order is kept: later output samples copy later source samples, strictly
    later when shrinking.
  */
  lemma {:induction false} SourceAscending(e: seq<int>, add: bool, k: nat, p: int, p': int)
    requires Ascending(e) && k < |e| && 0 <= p < p' < OutLen(e, add, k)
    ensures Source(e, add, k, p) <= Source(e, add, k, p')
    ensures !add ==> Source(e, add, k, p) < Source(e, add, k, p')
    decreases k
  {
    var i := k - 1;
    assert Gap(e, 0, k) >= k && Gap(e, 0, i) >= i && Gap(e, i, k) >= 1;
    if p' < OutLen(e, add, i) {
      SourceAscending(e, add, i, p, p');
    }
  }

  /** Shrinking never copies the last sample of a window. */
  lemma {:induction false} ShrinkDropsLast(e: seq<int>, k: nat, i: nat, p: int)
    requires Ascending(e) && i < k < |e| && 0 <= p < OutLen(e, false, k)
    ensures Source(e, false, k, p) != e[i + 1] - 1
    decreases k
  {
    var j := k - 1;
    assert Gap(e, 0, k) >= k && Gap(e, 0, j) >= j && Gap(e, j, k) >= 1 && Gap(e, i, i + 1) >= 1;
    if i < j {
      assert Gap(e, i + 1, j) >= 0;
      if p < OutLen(e, false, j) {
        ShrinkDropsLast(e, j, i, p);
      }
    }
  }

  // ---------------------------------------------------------------------
  // Shrinking undoes stretching

  /** The edges of the stretched buffer: each edge moves by the samples repeated before it. */
  lemma ShiftIsCut(e: seq<int>, len: nat)
    requires IsCut(e, len)
    ensures IsCut(Shift(e), len + |e| - 1)
  {
    var e' := Shift(e);
    forall i, j | 0 <= i <= j < |e'| ensures Gap(e', i, j) >= j - i {
      assert Gap(e, i, j) >= j - i;
    }
  }

  lemma {:induction false} SourceRoundTrip(e: seq<int>, k: nat, p: int)
    requires Ascending(e) && Ascending(Shift(e)) && k < |e| && 0 <= p < e[k]
    ensures 0 <= p < OutLen(Shift(e), false, k)
    ensures 0 <= Source(Shift(e), false, k, p) < OutLen(e, true, k)
    ensures Source(e, true, k, Source(Shift(e), false, k, p)) == p
  {
    var e' := Shift(e);
    assert Gap(e, 0, k) >= k;
    if k > 0 {
      assert Gap(e, 0, k - 1) >= k - 1 && Gap(e, k - 1, k) >= 1;
      if p < e[k - 1] {
        SourceRoundTrip(e, k - 1, p);
        SourcePrefix(e, true, k - 1, k, Source(e', false, k - 1, p));
      }
    }
  }

  /**
    Shrinking the stretched buffer at the shifted edges e' drops exactly the
    repeated samples.
  */
  lemma ShrinkUndoesStretch<T>(s: seq<T>, e: seq<int>, e': seq<int>, k: nat)
    requires IsCut(e, |s|) && k == |e| - 1 && e' == Shift(e)
    ensures |Adjusted(s, e, true, k)| == |s| + k && IsCut(e', |s| + k)
    ensures Adjusted(Adjusted(s, e, true, k), e', false, k) == s
  {
    ShiftIsCut(e, |s|);
    var t := Adjusted(s, e, true, k);
    var r := Adjusted(t, e', false, k);
    forall p | 0 <= p < |s| ensures r[p] == s[p] {
      SourceRoundTrip(e, k, p);
      var q := Source(e', false, k, p);
      AdjustedAt(t, e', false, k, p);
      AdjustedAt(s, e, true, k, q);
    }
  }

  lemma ResampledIsStretch<T>(s: seq<T>, goal: nat)
    requires |s| < goal <= 2 * |s|
    ensures Resampled(s, goal) == Adjusted(s, Edges(|s|, goal - |s|), true, goal - |s|)
  {
  }

  lemma ResampledIsShrink<T>(t: seq<T>, len: nat, err: nat)
    requires 0 < err && |t| == len + err
    ensures Resampled(t, len) == Adjusted(t, Edges(|t|, err), false, err)
  {
  }

  /**
    Stretching a frame to goal samples at the programs' cut e: sample j of
    window i lands at output j + i, and the window's last sample is
    repeated at output e[i + 1] + i.
  */
  lemma StretchedAt<T>(s: seq<T>, goal: nat, e: seq<int>, i: nat, j: int)
    requires |s| < goal <= 2 * |s| && e == Edges(|s|, goal - |s|)
    requires i < goal - |s| && e[i] <= j < e[i + 1]
    ensures 0 <= j < e[i + 1] <= |s| && e[i + 1] + i < goal
    ensures Resampled(s, goal)[j + i] == s[j]
    ensures Resampled(s, goal)[e[i + 1] + i] == s[e[i + 1] - 1]
  {
    var err := goal - |s|;
    assert Gap(e, 0, i) >= i && Gap(e, i + 1, err) >= 0;
    ResampledIsStretch(s, goal);
    StretchWindow(e, err, i, j);
    StretchWindow(e, err, i, e[i + 1]);
    AdjustedAt(s, e, true, err, j + i);
    AdjustedAt(s, e, true, err, e[i + 1] + i);
  }

  /**
    Shrinking a frame to goal samples at the programs' cut e: sample j of
    window i, except the window's last sample, lands at output j - i.
  */
  lemma ShrunkAt<T>(s: seq<T>, goal: nat, e: seq<int>, i: nat, j: int)
    requires goal < |s| && e == Edges(|s|, |s| - goal)
    requires i < |s| - goal && e[i] <= j < e[i + 1] - 1
    ensures 0 <= j - i < goal && 0 <= j < |s|
    ensures Resampled(s, goal)[j - i] == s[j]
  {
    var err := |s| - goal;
    assert Gap(e, 0, i) >= i && Gap(e, i + 1, err) >= 0;
    ResampledIsShrink(s, goal, err);
    ShrinkWindow(e, err, i, j);
    AdjustedAt(s, e, false, err, j - i);
  }

  /** Shrinking the stretched buffer t at its own edges e' restores the buffer. */
  lemma ShrinkStretched<T>(s: seq<T>, err: nat, e: seq<int>, e': seq<int>, t: seq<T>)
    requires 0 < err <= |s| && e == Edges(|s|, err) && e' == Edges(|s| + err, err)
    requires t == Adjusted(s, e, true, err)
    ensures |t| == |s| + err
    ensures Adjusted(t, e', false, err) == s
  {
    StretchedEdges(|s|, err);
    ShrinkUndoesStretch(s, e, e', err);
  }

  /** Shrinking a stretched buffer t back to its original length restores it. */
  lemma ShrinkAfterStretch<T>(s: seq<T>, err: nat, t: seq<T>)
    requires 0 < err <= |s| && t == Adjusted(s, Edges(|s|, err), true, err)
    ensures |t| == |s| + err && Resampled(t, |s|) == s
  {
    assert |t| == |s| + err;
    ShrinkStretched(s, err, Edges(|s|, err), Edges(|t|, err), t);
    ResampledIsShrink(t, |s|, err);
  }

  /** Stretching a buffer to goal samples and resampling it back to its length recovers it. */
  lemma ResampleRoundTrip<T>(s: seq<T>, goal: nat)
    requires |s| <= goal <= 2 * |s|
    ensures Resampled(Resampled(s, goal), |s|) == s
  {
    if goal > |s| {
      var t := Resampled(s, goal);
      ResampledIsStretch(s, goal);
      ShrinkAfterStretch(s, goal - |s|, t);
    }
  }
}
