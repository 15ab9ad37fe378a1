/**
 * The batch driver's work partition and per-file call order. The list of
 * files is split across `size` workers by computing, for every position,
 * its residue modulo `size`, sorting those residues, and letting worker
 * `rank` keep the files whose sorted residue equals `rank`. Each worker then
 * undoes any earlier correction of a file and applies the current one.
 */
module BatchRun {

  // ---------------------------------------------------------------------
  // Reading the list of files
  // ---------------------------------------------------------------------

  /** What `np.loadtxt` returns for a one-column list: a 0-d array or a 1-d array. */
  datatype FileArray = ZeroDim(item: string) | OneDim(items: seq<string>)

  /**
   * `np.loadtxt(path, dtype=str, ndmin=ndmin)` on a file with the given
   * entries, one per line: a single entry is squeezed to a 0-d array
   * unless at least one dimension is asked for.
   */
  function LoadFileList(entries: seq<string>, ndmin: nat): (r: FileArray)
    requires ndmin <= 1
    ensures ndmin == 1 ==> r == OneDim(entries)
    ensures ndmin == 0 ==> (r.ZeroDim? <==> |entries| == 1)
  {
    if ndmin == 0 && |entries| == 1 then ZeroDim(entries[0]) else OneDim(entries)
  }

  /** With `ndmin=1` a list file holding one name still yields a one-element list. */
  lemma SingleFileStillAList(name: string)
    ensures LoadFileList([name], 1) == OneDim([name])
    ensures LoadFileList([name], 0) == ZeroDim(name)
  {
  }

  // ---------------------------------------------------------------------
  // The rank index: sort(arange(n) mod size)
  // ---------------------------------------------------------------------

  /** `np.mod(np.arange(n), size)`. */
  function Residues(n: nat, size: nat): (r: seq<int>)
    requires size >= 1
    ensures |r| == n
    ensures forall i :: 0 <= i < n ==> 0 <= r[i] < size
  {
    seq(n, i requires 0 <= i < n => i % size)
  }

  predicate Sorted(s: seq<int>)
  {
    forall i, j :: 0 <= i < j < |s| ==> s[i] <= s[j]
  }

  function InsertSorted(x: int, s: seq<int>): (r: seq<int>)
    requires Sorted(s)
    ensures |r| == |s| + 1
    ensures Sorted(r)
    ensures multiset(r) == multiset(s) + multiset{x}
  {
    if |s| == 0 || x <= s[0] then [x] + s
    else
      var rest := InsertSorted(x, s[1..]);
      assert s == [s[0]] + s[1..];
      BoundedBelow(s[0], x, s[1..], rest);
      [s[0]] + rest
  }

  /** A bound below `x` and below every element of `t` is below every element of `t` with `x` added. */
  lemma BoundedBelow(h: int, x: int, t: seq<int>, rest: seq<int>)
    requires h <= x && forall j :: 0 <= j < |t| ==> h <= t[j]
    requires multiset(rest) == multiset(t) + multiset{x}
    ensures forall k :: 0 <= k < |rest| ==> h <= rest[k]
  {
    forall k | 0 <= k < |rest| ensures h <= rest[k] {
      assert rest[k] in multiset(rest);
      if rest[k] != x {
        assert rest[k] in multiset(t);
        var j :| 0 <= j < |t| && t[j] == rest[k];
      }
    }
  }

  /** `np.sort`: the ascending permutation of `s`. */
  function Sort(s: seq<int>): (r: seq<int>)
    ensures |r| == |s|
    ensures Sorted(r)
    ensures multiset(r) == multiset(s)
  {
    if |s| == 0 then []
    else
      assert s == s[..|s| - 1] + [s[|s| - 1]];
      InsertSorted(s[|s| - 1], Sort(s[..|s| - 1]))
  }

  lemma SortedHeadsEqual(a: seq<int>, b: seq<int>)
    requires Sorted(a) && Sorted(b) && multiset(a) == multiset(b)
    requires |a| > 0 && |b| > 0
    ensures a[0] == b[0]
  {
    assert a[0] in multiset(b) && b[0] in multiset(a);
    var j :| 0 <= j < |b| && b[j] == a[0];
    var i :| 0 <= i < |a| && a[i] == b[0];
  }

  /** Dropping the head of a sorted sequence leaves a sorted sequence of the remaining elements. */
  lemma SortedTail(a: seq<int>)
    requires Sorted(a) && |a| > 0
    ensures Sorted(a[1..])
    ensures multiset(a[1..]) == multiset(a) - multiset{a[0]}
    ensures a == [a[0]] + a[1..]
  {
    assert a == [a[0]] + a[1..];
  }

  /** A sorted sequence is determined by its multiset of elements. */
  lemma {:induction false} SortedPermutationsEqual(a: seq<int>, b: seq<int>)
    requires Sorted(a) && Sorted(b) && multiset(a) == multiset(b)
    ensures a == b
    decreases |a|
  {
    if |a| == 0 || |b| == 0 {
      assert |a| == |multiset(a)| == |multiset(b)| == |b|;
    } else {
      SortedHeadsEqual(a, b);
      SortedTail(a);
      SortedTail(b);
      SortedPermutationsEqual(a[1..], b[1..]);
    }
  }

  /** The rank index of every position: `np.sort(np.mod(np.arange(n), size))`. */
  function RankIndex(n: nat, size: nat): (r: seq<int>)
    requires size >= 1
    ensures |r| == n
    ensures Sorted(r)
    ensures forall i :: 0 <= i < n ==> 0 <= r[i] < size
    ensures forall v :: multiset(r)[v] == if 0 <= v < size then Count(Quot(n, size), Rem(n, size), v) else 0
  {
    var r := Sort(Residues(n, size));
    assert forall i :: 0 <= i < n ==> r[i] in multiset(Residues(n, size));
    (forall v ensures multiset(r)[v] == if 0 <= v < size then Count(Quot(n, size), Rem(n, size), v) else 0 {
       ResidueCounts(n, size, v);
     }
     r)
  }

  // ---------------------------------------------------------------------
  // Boolean-mask selection and the share of one rank
  // ---------------------------------------------------------------------

  /** `files[idx == rank]`: the files whose index value is `rank`, in their original order. */
  function Mask(files: seq<string>, idx: seq<int>, rank: int): (r: seq<string>)
    requires |idx| == |files|
    ensures |r| == multiset(idx)[rank]
    decreases |files|
  {
    if |files| == 0 then []
    else
      assert idx == [idx[0]] + idx[1..];
      (if idx[0] == rank then [files[0]] else []) + Mask(files[1..], idx[1..], rank)
  }

  /** The files worker `rank` of `size` keeps: `n / size` of them, plus one for the first `n mod size` ranks. */
  function Share(files: seq<string>, size: nat, rank: nat): (r: seq<string>)
    requires 1 <= size && rank < size
    ensures |r| == Count(Quot(|files|, size), Rem(|files|, size), rank)
  {
    Mask(files, RankIndex(|files|, size), rank)
  }

  /** `n / size` and `n mod size` for a natural `n`. */
  function Quot(n: nat, size: nat): nat
    requires size >= 1
  {
    n / size
  }

  function Rem(n: nat, size: nat): nat
    requires size >= 1
  {
    n % size
  }

  // ---------------------------------------------------------------------
  // How many positions each rank owns, and where its block starts. With
  // `n == q * size + m` and `m < size`, rank `r` owns `Count(q, m, r)`
  // positions, and its block begins at `Start(q, m, r)`.
  // ---------------------------------------------------------------------

  /** `q`, plus one for the first `m` ranks. */
  function Count(q: nat, m: nat, r: nat): nat
  {
    q + (if r < m then 1 else 0)
  }

  /** Where the block of rank `r` begins: the counts of all lower ranks added up. */
  function Start(q: nat, m: nat, r: nat): nat
  {
    if r == 0 then 0 else Start(q, m, r - 1) + Count(q, m, r - 1)
  }

  lemma MulAtLeast(k: int, d: int)
    requires k >= 1 && d > 0
    ensures k * d >= d
  {
    assert k * d == (k - 1) * d + d;
  }

  /** Quotient and remainder are unique: `x == q * d + m` with `0 <= m < d` fixes both. */
  lemma DivModUnique(x: int, d: int, q: int, m: int)
    requires d > 0 && 0 <= m < d && x == q * d + m
    ensures x / d == q && x % d == m
  {
    var q', m' := x / d, x % d;
    assert x == q' * d + m';
    assert (q' - q) * d == m - m';
    if q' > q {
      MulAtLeast(q' - q, d);
    } else if q' < q {
      MulAtLeast(q - q', d);
    }
  }

  /** Appending position `n` adds one to the count of rank `n mod size` only. */
  lemma CountStep(n: nat, size: nat, v: nat)
    requires size >= 1 && v < size
    ensures Count(Quot(n + 1, size), Rem(n + 1, size), v)
         == Count(Quot(n, size), Rem(n, size), v) + (if Rem(n, size) == v then 1 else 0)
  {
    var q, m := Quot(n, size), Rem(n, size);
    assert n == q * size + m;
    if m + 1 < size {
      DivModUnique(n + 1, size, q, m + 1);
    } else {
      DivModUnique(n + 1, size, q + 1, 0);
    }
  }

  /** Each rank below `size` occurs `Count` times among the residues, and nothing else occurs. */
  lemma {:induction false} ResidueCounts(n: nat, size: nat, v: int)
    requires size >= 1
    ensures multiset(Residues(n, size))[v] == if 0 <= v < size then Count(Quot(n, size), Rem(n, size), v) else 0
  {
    if n == 0 {
      assert Residues(0, size) == [];
      if 0 <= v < size {
        assert 0 / size == 0 && 0 % size == 0;
      }
    } else {
      ResidueCounts(n - 1, size, v);
      assert Residues(n, size) == Residues(n - 1, size) + [(n - 1) % size];
      if 0 <= v < size {
        CountStep(n - 1, size, v);
      }
    }
  }

  // ---------------------------------------------------------------------
  // The sorted residues are blocks of equal ranks
  // ---------------------------------------------------------------------

  function Repeat(v: int, k: nat): (r: seq<int>)
    ensures |r| == k && forall i :: 0 <= i < k ==> r[i] == v
  {
    seq(k, _ => v)
  }

  lemma {:induction false} RepeatCount(v: int, k: nat, w: int)
    ensures multiset(Repeat(v, k))[w] == if w == v then k else 0
  {
    if k > 0 {
      RepeatCount(v, k - 1, w);
      assert Repeat(v, k) == Repeat(v, k - 1) + [v];
    } else {
      assert Repeat(v, 0) == [];
    }
  }

  /** The blocks of ranks `r0` to `size - 1`, each rank repeated as often as it owns positions. */
  function Blocks(q: nat, m: nat, size: nat, r0: nat): (s: seq<int>)
    requires r0 <= size
    ensures Sorted(s)
    ensures forall i :: 0 <= i < |s| ==> r0 <= s[i] < size
    decreases size - r0
  {
    if r0 == size then []
    else
      var rest := Blocks(q, m, size, r0 + 1);
      Repeat(r0, Count(q, m, r0)) + rest
  }

  lemma {:induction false} BlocksCounts(q: nat, m: nat, size: nat, r0: nat, v: int)
    requires r0 <= size
    ensures multiset(Blocks(q, m, size, r0))[v] == if r0 <= v < size then Count(q, m, v) else 0
    decreases size - r0
  {
    if r0 < size {
      var head, rest := Repeat(r0, Count(q, m, r0)), Blocks(q, m, size, r0 + 1);
      assert Blocks(q, m, size, r0) == head + rest;
      assert multiset(Blocks(q, m, size, r0)) == multiset(head) + multiset(rest);
      BlocksCounts(q, m, size, r0 + 1, v);
      RepeatCount(r0, Count(q, m, r0), v);
    }
  }

  lemma {:induction false} StartMonotone(q: nat, m: nat, a: nat, b: nat)
    requires a <= b
    ensures Start(q, m, a) <= Start(q, m, b)
    decreases b - a
  {
    if a < b {
      StartMonotone(q, m, a, b - 1);
    }
  }

  /** Sorting the residues yields exactly the blocks of ranks 0, 1, ..., size - 1. */
  lemma RankIndexIsBlocks(n: nat, size: nat)
    requires size >= 1
    ensures RankIndex(n, size) == Blocks(Quot(n, size), Rem(n, size), size, 0)
  {
    var blocks := Blocks(Quot(n, size), Rem(n, size), size, 0);
    forall v ensures multiset(RankIndex(n, size))[v] == multiset(blocks)[v] {
      BlocksCounts(Quot(n, size), Rem(n, size), size, 0, v);
    }
    assert multiset(RankIndex(n, size)) == multiset(blocks);
    SortedPermutationsEqual(RankIndex(n, size), blocks);
  }

  /** Position `i` of the blocks from `r0` holds the rank whose block covers `i`. */
  lemma {:induction false} BlocksAt(q: nat, m: nat, size: nat, r0: nat, i: nat)
    requires r0 <= size && i < |Blocks(q, m, size, r0)|
    ensures var v := Blocks(q, m, size, r0)[i];
      && r0 <= v < size
      && Start(q, m, v) <= Start(q, m, r0) + i < Start(q, m, v) + Count(q, m, v)
    decreases size - r0
  {
    var c := Count(q, m, r0);
    if i >= c {
      BlocksAt(q, m, size, r0 + 1, i - c);
    }
  }

  /** Lower ranks get earlier slices: the block of `r1 < r2` ends before that of `r2` begins. */
  lemma LowerRanksComeFirst(q: nat, m: nat, r1: nat, r2: nat)
    requires r1 < r2
    ensures Start(q, m, r1) + Count(q, m, r1) <= Start(q, m, r2)
  {
    StartMonotone(q, m, r1 + 1, r2);
  }

  /** A position lies in the block of at most one rank. */
  lemma BlocksDisjoint(q: nat, m: nat, v: nat, rank: nat, i: nat)
    requires Start(q, m, v) <= i < Start(q, m, v) + Count(q, m, v)
    ensures v == rank <==> Start(q, m, rank) <= i < Start(q, m, rank) + Count(q, m, rank)
  {
    if v < rank {
      LowerRanksComeFirst(q, m, v, rank);
    } else if v > rank {
      LowerRanksComeFirst(q, m, rank, v);
    }
  }

  /**
   * Position `i` gets rank index `rank` exactly when it lies in the block of
   * `rank`: every position belongs to exactly one rank.
   */
  lemma OwnerIff(n: nat, size: nat, i: nat, rank: nat)
    requires size >= 1 && i < n && rank < size
    ensures 0 <= RankIndex(n, size)[i] < size
    ensures RankIndex(n, size)[i] == rank <==> Begin(n, size, rank) <= i < End(n, size, rank)
  {
    var q, m := Quot(n, size), Rem(n, size);
    RankIndexIsBlocks(n, size);
    BlocksAt(q, m, size, 0, i);
    BlocksDisjoint(q, m, RankIndex(n, size)[i], rank, i);
  }

  /** A mask that selects exactly the positions `lo` to `hi - 1` keeps that slice. */
  lemma {:induction false} MaskOfInterval(files: seq<string>, idx: seq<int>, rank: int, lo: nat, hi: nat)
    requires |idx| == |files| && lo <= hi <= |files|
    requires forall i :: 0 <= i < |idx| ==> (idx[i] == rank <==> lo <= i < hi)
    ensures Mask(files, idx, rank) == files[lo..hi]
    decreases |files|
  {
    if |files| > 0 {
      if lo == 0 {
        if hi > 0 {
          MaskOfInterval(files[1..], idx[1..], rank, 0, hi - 1);
          SliceFromHead(files, hi);
        } else {
          MaskOfInterval(files[1..], idx[1..], rank, 0, 0);
        }
      } else {
        MaskOfInterval(files[1..], idx[1..], rank, lo - 1, hi - 1);
        SliceOfTail(files, lo, hi);
      }
    }
  }

  lemma SliceFromHead(s: seq<string>, hi: nat)
    requires 0 < hi <= |s|
    ensures s[0..hi] == [s[0]] + s[1..][0..hi - 1]
  {
  }

  lemma SliceOfTail(s: seq<string>, lo: nat, hi: nat)
    requires 0 < lo <= hi <= |s|
    ensures s[lo..hi] == s[1..][lo - 1..hi - 1]
  {
    var t := s[1..];
    assert forall k :: lo <= k < hi ==> s[k] == t[k - 1];
  }

  /** The block of rank `r` begins at `r * q + min(r, m)`. */
  lemma {:induction false} StartClosedForm(q: nat, m: nat, r: nat)
    ensures Start(q, m, r) == r * q + (if r < m then r else m)
  {
    if r > 0 {
      StartClosedForm(q, m, r - 1);
      assert r * q == (r - 1) * q + q;
    }
  }

  /** The blocks of all ranks together are exactly as long as the list. */
  lemma AllBlocksCoverList(n: nat, size: nat)
    requires size >= 1
    ensures Start(Quot(n, size), Rem(n, size), size) == n
  {
    StartClosedForm(Quot(n, size), Rem(n, size), size);
    assert n == size * Quot(n, size) + Rem(n, size);
  }

  /** The block of every rank ends where the blocks of all ranks end, or before. */
  lemma BlockWithin(q: nat, m: nat, size: nat, rank: nat)
    requires rank < size
    ensures Start(q, m, rank) + Count(q, m, rank) <= Start(q, m, size)
  {
    assert Start(q, m, rank + 1) == Start(q, m, rank) + Count(q, m, rank);
    StartMonotone(q, m, rank + 1, size);
  }

  /** Where the slice of worker `rank` begins in a list of `n` files. */
  function Begin(n: nat, size: nat, rank: nat): nat
    requires size >= 1
  {
    Start(Quot(n, size), Rem(n, size), rank)
  }

  /** Where the slice of worker `rank` ends in a list of `n` files. */
  function End(n: nat, size: nat, rank: nat): nat
    requires size >= 1
  {
    Begin(n, size, rank) + Count(Quot(n, size), Rem(n, size), rank)
  }

  /** The positions whose rank index is `rank` are exactly those of its slice, which lies within the list. */
  lemma OwnedPositions(n: nat, size: nat, rank: nat)
    requires 1 <= size && rank < size
    ensures End(n, size, rank) <= n
    ensures forall i :: 0 <= i < n ==> (RankIndex(n, size)[i] == rank <==> Begin(n, size, rank) <= i < End(n, size, rank))
  {
    AllBlocksCoverList(n, size);
    BlockWithin(Quot(n, size), Rem(n, size), size, rank);
    forall i | 0 <= i < n
      ensures RankIndex(n, size)[i] == rank <==> Begin(n, size, rank) <= i < End(n, size, rank)
    {
      OwnerIff(n, size, i, rank);
    }
  }

  /**
   * Each rank's files are one contiguous slice of the list, in their
   * original order, beginning where the lower ranks' slices end.
   */
  lemma ShareIsSlice(files: seq<string>, size: nat, rank: nat)
    requires 1 <= size && rank < size
    ensures End(|files|, size, rank) <= |files|
    ensures Share(files, size, rank) == files[Begin(|files|, size, rank)..End(|files|, size, rank)]
  {
    OwnedPositions(|files|, size, rank);
    MaskOfInterval(files, RankIndex(|files|, size), rank, Begin(|files|, size, rank), End(|files|, size, rank));
  }

  /** Shares differ in size by at most one. */
  lemma SharesBalanced(files: seq<string>, size: nat, r1: nat, r2: nat)
    requires 1 <= size && r1 < size && r2 < size
    ensures |Share(files, size, r1)| <= |Share(files, size, r2)| + 1
  {
  }

  /** The parts laid end to end. */
  function Concat(parts: seq<seq<string>>): (r: seq<string>)
  {
    if |parts| == 0 then [] else parts[0] + Concat(parts[1..])
  }

  /** The share of every rank, indexed by rank: what the workers hold between them. */
  function Shares(files: seq<string>, size: nat): (r: seq<seq<string>>)
    requires size >= 1
    ensures |r| == size
    ensures forall rank :: 0 <= rank < size ==> r[rank] == Share(files, size, rank)
  {
    seq(size, rank requires 0 <= rank < size => Share(files, size, rank))
  }

  /** Consecutive slices between ascending bounds join up to the suffix from the first bound. */
  lemma {:induction false} ConcatSlices(s: seq<string>, bounds: seq<nat>, parts: seq<seq<string>>)
    requires |bounds| == |parts| + 1 && bounds[|parts|] == |s|
    requires forall i, j :: 0 <= i <= j < |bounds| ==> bounds[i] <= bounds[j]
    requires forall k :: 0 <= k < |parts| ==> parts[k] == s[bounds[k]..bounds[k + 1]]
    ensures bounds[0] <= |s|
    ensures Concat(parts) == s[bounds[0]..]
    decreases |parts|
  {
    if |parts| > 0 {
      ConcatSlices(s, bounds[1..], parts[1..]);
      SlicesJoin(s, bounds[0], bounds[1]);
    }
  }

  lemma SlicesJoin(s: seq<string>, lo: nat, mid: nat)
    requires lo <= mid <= |s|
    ensures s[lo..] == s[lo..mid] + s[mid..]
  {
  }

  /** The slice bounds of all ranks: ascending, each slice ending where the next begins, the last ending at `n`. */
  lemma SliceBounds(n: nat, size: nat)
    requires size >= 1
    ensures Begin(n, size, 0) == 0 && Begin(n, size, size) == n
    ensures forall i, j :: 0 <= i <= j <= size ==> Begin(n, size, i) <= Begin(n, size, j)
    ensures forall k :: 0 <= k < size ==> End(n, size, k) == Begin(n, size, k + 1)
  {
    AllBlocksCoverList(n, size);
    forall i, j | 0 <= i <= j <= size
      ensures Begin(n, size, i) <= Begin(n, size, j)
    {
      StartMonotone(Quot(n, size), Rem(n, size), i, j);
    }
  }

  /** The shares of ranks 0 to size - 1, laid end to end, are the whole list: every file goes to exactly one worker, in order. */
  lemma SharesPartition(files: seq<string>, size: nat)
    requires size >= 1
    ensures Concat(Shares(files, size)) == files
  {
    var parts := Shares(files, size);
    var bounds := SliceStarts(|files|, size);
    forall k | 0 <= k < size
      ensures parts[k] == files[bounds[k]..bounds[k + 1]]
    {
      ShareIsSlice(files, size, k);
    }
    ConcatSlices(files, bounds, parts);
    assert files[bounds[0]..] == files;
  }

  /** The start of every worker's slice, followed by the length of the list. */
  function SliceStarts(n: nat, size: nat): (b: seq<nat>)
    requires size >= 1
    ensures |b| == size + 1 && b[0] == 0 && b[size] == n
    ensures forall i, j :: 0 <= i <= j <= size ==> b[i] <= b[j]
    ensures forall k :: 0 <= k < size ==> b[k] == Begin(n, size, k) && b[k + 1] == End(n, size, k)
  {
    SliceBounds(n, size);
    seq(size + 1, r requires 0 <= r <= size => Begin(n, size, r))
  }

  // ---------------------------------------------------------------------
  // The per-file driver loop, as a trace of calls
  // ---------------------------------------------------------------------

  /** The calls a worker makes, recorded instead of performed. */
  datatype Call =
    | ReverseUpdate(file: string, oldPrefix: string)
    | Update(file: string, datestr: string, params: seq<real>, oldPrefix: string)

  /** The archive suffix both calls are given. */
  const OldPrefix: string := "_191101"

  /**
   * The driver loop over a list of files: for each file in order, first undo
   * any earlier correction, then apply the correction for `datestr` with
   * `params`, both with the same archive suffix.
   */
  method ProcessFiles(files: seq<string>, datestr: string, params: seq<real>) returns (trace: seq<Call>)
    ensures |trace| == 2 * |files|
    ensures forall k :: 0 <= k < |files| ==>
      && trace[2 * k] == ReverseUpdate(files[k], OldPrefix)
      && trace[2 * k + 1] == Update(files[k], datestr, params, OldPrefix)
  {
    trace := [];
    for i := 0 to |files|
      invariant |trace| == 2 * i
      invariant forall k :: 0 <= k < i ==>
        && trace[2 * k] == ReverseUpdate(files[k], OldPrefix)
        && trace[2 * k + 1] == Update(files[k], datestr, params, OldPrefix)
    {
      trace := trace + [ReverseUpdate(files[i], OldPrefix), Update(files[i], datestr, params, OldPrefix)];
    }
  }

  /** Worker `rank` of `size` runs the driver loop over its own share of the list only. */
  method RunWorker(files: seq<string>, size: nat, rank: nat, datestr: string, params: seq<real>)
    returns (mine: seq<string>, trace: seq<Call>)
    requires 1 <= size && rank < size
    ensures mine == Share(files, size, rank)
    ensures |trace| == 2 * |mine|
    ensures forall k :: 0 <= k < |mine| ==>
      && trace[2 * k] == ReverseUpdate(mine[k], OldPrefix)
      && trace[2 * k + 1] == Update(mine[k], datestr, params, OldPrefix)
  {
    mine := Share(files, size, rank);
    trace := ProcessFiles(mine, datestr, params);
  }
}
