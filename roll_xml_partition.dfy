/**
 * Partitioning of the roll XML files between the ingestion workers
 * (`split_xmls_between_workers`): files are dealt, largest first, each to the
 * worker that currently holds the least data, ties going to the lower worker
 * index as the `[load, worker_id]` heap entries order them.
 */
module RollXmlPartition {
  import opened Wrappers

  datatype XmlFile = XmlFile(path: string, size: nat)

  /** One worker's share: id (1-based), the files in dealing order and their total size. */
  datatype Split = Split(id: nat, files: seq<XmlFile>, size: nat)

  // ---------------------------------------------------------------------------
  // Ordering of the files: `sorted(key=size)`, descending for a real run,
  // ascending then `islice(n * 10, n * 30)` in test mode.  Python's sort is
  // stable, also with `reverse=True`, so a file goes before the equal-sized
  // files that follow it.

  predicate InOrder(a: XmlFile, b: XmlFile, desc: bool)
  {
    if desc then a.size >= b.size else a.size <= b.size
  }

  predicate SortedBySize(s: seq<XmlFile>, desc: bool)
  {
    forall i, j | 0 <= i < j < |s| :: InOrder(s[i], s[j], desc)
  }

  function Insert(x: XmlFile, s: seq<XmlFile>, desc: bool): seq<XmlFile>
  {
    if s == [] || InOrder(x, s[0], desc) then [x] + s else [s[0]] + Insert(x, s[1..], desc)
  }

  function SortBySize(fs: seq<XmlFile>, desc: bool): seq<XmlFile>
  {
    if fs == [] then [] else Insert(fs[0], SortBySize(fs[1..], desc), desc)
  }

  /** The inserted sequence holds one more file: `x`. */
  lemma {:induction false} InsertElems(x: XmlFile, s: seq<XmlFile>, desc: bool)
    ensures multiset(Insert(x, s, desc)) == multiset(s) + multiset{x}
    ensures |Insert(x, s, desc)| == |s| + 1
    decreases |s|
  {
    if s != [] && !InOrder(x, s[0], desc) {
      InsertElems(x, s[1..], desc);
      assert s == [s[0]] + s[1..];
    }
  }

  /** A file in order before `x` and before all of `s` is in order before all of the insertion. */
  lemma {:induction false} InsertBelow(b: XmlFile, x: XmlFile, s: seq<XmlFile>, desc: bool)
    requires InOrder(b, x, desc) && forall k | 0 <= k < |s| :: InOrder(b, s[k], desc)
    ensures forall k | 0 <= k < |Insert(x, s, desc)| :: InOrder(b, Insert(x, s, desc)[k], desc)
    decreases |s|
  {
    if s != [] && !InOrder(x, s[0], desc) {
      InsertBelow(b, x, s[1..], desc);
      var r := Insert(x, s, desc);
      forall k | 0 <= k < |r| ensures InOrder(b, r[k], desc) {
        if k > 0 {
          assert r[k] == Insert(x, s[1..], desc)[k - 1];
        }
      }
    }
  }

  /** A sorted tail behind a head in order before all of it is sorted. */
  lemma ConsSorted(h: XmlFile, t: seq<XmlFile>, desc: bool)
    requires SortedBySize(t, desc) && forall k | 0 <= k < |t| :: InOrder(h, t[k], desc)
    ensures SortedBySize([h] + t, desc)
  {
    var r := [h] + t;
    forall i, j | 0 <= i < j < |r| ensures InOrder(r[i], r[j], desc) {
      assert r[j] == t[j - 1];
      if i > 0 {
        assert r[i] == t[i - 1];
      }
    }
  }

  lemma {:induction false} InsertSorted(x: XmlFile, s: seq<XmlFile>, desc: bool)
    requires SortedBySize(s, desc)
    ensures SortedBySize(Insert(x, s, desc), desc)
    decreases |s|
  {
    if s == [] || InOrder(x, s[0], desc) {
      forall k | 0 <= k < |s| ensures InOrder(x, s[k], desc) {
        assert InOrder(s[0], s[k], desc) || k == 0;
      }
      ConsSorted(x, s, desc);
    } else {
      var t := s[1..];
      assert SortedBySize(t, desc) by {
        forall i, j | 0 <= i < j < |t| ensures InOrder(t[i], t[j], desc) {
          assert t[i] == s[i + 1] && t[j] == s[j + 1];
        }
      }
      InsertSorted(x, t, desc);
      forall k | 0 <= k < |t| ensures InOrder(s[0], t[k], desc) {
        assert t[k] == s[k + 1];
      }
      InsertBelow(s[0], x, t, desc);
      ConsSorted(s[0], Insert(x, t, desc), desc);
    }
  }

  /** The files in size order, with nothing lost or added. */
  lemma {:induction false} SortBySizeCorrect(fs: seq<XmlFile>, desc: bool)
    ensures SortedBySize(SortBySize(fs, desc), desc)
    ensures multiset(SortBySize(fs, desc)) == multiset(fs)
  {
    if fs != [] {
      SortBySizeCorrect(fs[1..], desc);
      InsertSorted(fs[0], SortBySize(fs[1..], desc), desc);
      InsertElems(fs[0], SortBySize(fs[1..], desc), desc);
      assert fs == [fs[0]] + fs[1..];
    }
  }

  /** `itertools.islice(s, start, stop)`. */
  function Slice(s: seq<XmlFile>, start: nat, stop: nat): (r: seq<XmlFile>)
    ensures start <= stop && stop <= |s| ==> r == s[start..stop]
    ensures start < |s| < stop ==> r == s[start..]
    ensures |s| <= start || stop <= start ==> r == []
    ensures |r| <= |s| && |r| <= if start <= stop then stop - start else 0
  {
    if start >= |s| || start >= stop then [] else s[start..if stop <= |s| then stop else |s|]
  }

  /** The order in which the files are dealt. */
  function DealingOrder(files: seq<XmlFile>, numWorkers: nat, test: bool): seq<XmlFile>
  {
    if test then Slice(SortBySize(files, false), numWorkers * 10, numWorkers * 30)
    else SortBySize(files, true)
  }

  // ---------------------------------------------------------------------------
  // The heap.  `heappushpop` and the first `heappop` return the least
  // `[load, worker_id]` entry; worker ids are distinct, so that is the worker
  // of least load, the lowest id among equals.

  /** Worker `a` comes before worker `b` in the heap order. */
  predicate HeapBefore(loads: seq<nat>, a: nat, b: nat)
    requires a < |loads| && b < |loads|
  {
    loads[a] < loads[b] || (loads[a] == loads[b] && a <= b)
  }

  function LeastWorker(loads: seq<nat>): (w: nat)
    requires |loads| > 0
    ensures w < |loads|
    ensures forall j | 0 <= j < |loads| :: HeapBefore(loads, w, j)
  {
    if |loads| == 1 then 0
    else
      var prefix := loads[..|loads| - 1];
      var w := LeastWorker(prefix);
      assert forall j | 0 <= j < |prefix| :: prefix[j] == loads[j] && HeapBefore(prefix, w, j);
      if loads[|loads| - 1] < loads[w] then |loads| - 1 else w
  }

  function SumSizes(fs: seq<XmlFile>): nat
  {
    if fs == [] then 0 else SumSizes(fs[..|fs| - 1]) + fs[|fs| - 1].size
  }

  /** The largest file size (0 for no file): no file exceeds it, and some file has it. */
  function MaxSize(fs: seq<XmlFile>): (m: nat)
    ensures forall k | 0 <= k < |fs| :: fs[k].size <= m
    ensures fs == [] ==> m == 0
    ensures fs != [] ==> exists k | 0 <= k < |fs| :: fs[k].size == m
  {
    if fs == [] then 0
    else
      var m := MaxSize(fs[1..]);
      assert forall k | 1 <= k < |fs| :: fs[k] == fs[1..][k - 1];
      if fs[0].size > m then fs[0].size else m
  }

  /** Every file of every split, as a multiset. */
  function AllFiles(splits: seq<Split>): multiset<XmlFile>
  {
    if splits == [] then multiset{} else AllFiles(splits[..|splits| - 1]) + multiset(splits[|splits| - 1].files)
  }

  /** `splits[w]` receives the file `f`: it is appended and its size added. */
  function Give(splits: seq<Split>, w: nat, f: XmlFile): (r: seq<Split>)
    requires w < |splits|
    ensures |r| == |splits|
  {
    splits[w := splits[w].(files := splits[w].files + [f], size := splits[w].size + f.size)]
  }

  lemma {:induction false} GiveFiles(splits: seq<Split>, w: nat, f: XmlFile)
    requires w < |splits|
    ensures AllFiles(Give(splits, w, f)) == AllFiles(splits) + multiset{f}
    decreases |splits|
  {
    var n := |splits|;
    var s' := Give(splits, w, f);
    if w == n - 1 {
      assert s'[..n - 1] == splits[..n - 1];
    } else {
      assert s'[..n - 1] == Give(splits[..n - 1], w, f);
      GiveFiles(splits[..n - 1], w, f);
    }
  }

  lemma GiveWellFormed(splits: seq<Split>, w: nat, f: XmlFile)
    requires w < |splits| && WellFormed(splits)
    ensures WellFormed(Give(splits, w, f))
  {
    var oldFiles := splits[w].files;
    assert (oldFiles + [f])[..|oldFiles|] == oldFiles;
  }

  /** The workers' loads, as the heap entries carry them. */
  function Loads(splits: seq<Split>): seq<nat>
  {
    seq(|splits|, k requires 0 <= k < |splits| => splits[k].size)
  }

  /** Worker `i` (ids from 1) with no file yet. */
  function NoFiles(numWorkers: nat): (r: seq<Split>)
    ensures |r| == numWorkers
    ensures forall i | 0 <= i < numWorkers :: r[i] == Split(i + 1, [], 0)
  {
    seq(numWorkers, i requires 0 <= i => Split(i + 1, [], 0))
  }

  /** The splits after dealing `order`: each file goes to the least worker in heap order. */
  function Deal(order: seq<XmlFile>, numWorkers: nat): (splits: seq<Split>)
    requires numWorkers > 0
    ensures |splits| == numWorkers
    decreases |order|
  {
    if order == [] then NoFiles(numWorkers)
    else
      var before := Deal(order[..|order| - 1], numWorkers);
      var f := order[|order| - 1];
      Give(before, LeastWorker(Loads(before)), f)
  }

  /** The loads are balanced: no worker holds more than another plus the largest file. */
  predicate Balanced(loads: seq<nat>, bound: nat)
  {
    forall i, j | 0 <= i < |loads| && 0 <= j < |loads| :: loads[i] <= loads[j] + bound
  }

  predicate WellFormed(splits: seq<Split>)
  {
    forall i | 0 <= i < |splits| :: splits[i].id == i + 1 && splits[i].size == SumSizes(splits[i].files)
  }

  lemma {:induction false} DealWellFormed(order: seq<XmlFile>, numWorkers: nat)
    requires numWorkers > 0
    ensures WellFormed(Deal(order, numWorkers))
    decreases |order|
  {
    if order != [] {
      var prefix := order[..|order| - 1];
      var before := Deal(prefix, numWorkers);
      DealWellFormed(prefix, numWorkers);
      GiveWellFormed(before, LeastWorker(Loads(before)), order[|order| - 1]);
    }
  }

  /** Every file is dealt to exactly one worker. */
  lemma {:induction false} DealFiles(order: seq<XmlFile>, numWorkers: nat)
    requires numWorkers > 0
    ensures AllFiles(Deal(order, numWorkers)) == multiset(order)
    decreases |order|
  {
    if order == [] {
      EmptyFiles(Deal(order, numWorkers));
    } else {
      var prefix := order[..|order| - 1];
      var before := Deal(prefix, numWorkers);
      var f := order[|order| - 1];
      DealFiles(prefix, numWorkers);
      assert Deal(order, numWorkers) == Give(before, LeastWorker(Loads(before)), f);
      GiveFiles(before, LeastWorker(Loads(before)), f);
      assert order == prefix + [f];
    }
  }

  /** Dealing files of at most `bound` each keeps the loads within `bound` of each other. */
  lemma {:induction false} DealBalanced(order: seq<XmlFile>, numWorkers: nat, bound: nat)
    requires numWorkers > 0
    requires forall k | 0 <= k < |order| :: order[k].size <= bound
    ensures Balanced(Loads(Deal(order, numWorkers)), bound)
    decreases |order|
  {
    if order != [] {
      var prefix := order[..|order| - 1];
      assert forall k | 0 <= k < |prefix| :: prefix[k] == order[k];
      DealBalanced(prefix, numWorkers, bound);
      var before := Deal(prefix, numWorkers);
      var f := order[|order| - 1];
      var w := LeastWorker(Loads(before));
      assert Deal(order, numWorkers) == Give(before, w, f);
      LoadsGive(before, w, f);
      Rebalance(Loads(before), w, f.size, bound);
    }
  }

  /** Giving a file adds its size to that worker's load and to no other. */
  lemma LoadsGive(splits: seq<Split>, w: nat, f: XmlFile)
    requires w < |splits|
    ensures Loads(Give(splits, w, f)) == Loads(splits)[w := Loads(splits)[w] + f.size]
  {
    var g := Give(splits, w, f);
    var a, b := Loads(g), Loads(splits)[w := Loads(splits)[w] + f.size];
    assert |a| == |b|;
    forall k | 0 <= k < |a| ensures a[k] == b[k] {
      assert a[k] == g[k].size;
      if k != w {
        assert g[k] == splits[k];
      }
    }
  }

  /**
   * `split_xmls_between_workers`: deal the files in `DealingOrder`, each to the
   * least-loaded worker.  With no worker the first `heappop` raises.
   */
  method SplitXmlsBetweenWorkers(files: seq<XmlFile>, numWorkers: nat, test: bool) returns (r: Option<seq<Split>>)
    ensures r.None? <==> numWorkers == 0
    ensures r.Some? ==> r.value == Deal(DealingOrder(files, numWorkers, test), numWorkers)
    ensures r.Some? ==> |r.value| == numWorkers && WellFormed(r.value)
    ensures r.Some? ==> AllFiles(r.value) == multiset(DealingOrder(files, numWorkers, test))
    ensures r.Some? ==> Balanced(Loads(r.value), MaxSize(DealingOrder(files, numWorkers, test)))
  {
    if numWorkers == 0 {
      return None;
    }
    var order := DealingOrder(files, numWorkers, test);
    var splits := NoFiles(numWorkers);
    var k := 0;
    while k < |order|
      invariant 0 <= k <= |order|
      invariant splits == Deal(order[..k], numWorkers)
    {
      var f := order[k];
      var w := LeastWorker(Loads(splits));
      assert order[..k + 1][..k] == order[..k];
      splits := Give(splits, w, f);
      k := k + 1;
    }
    assert order[..|order|] == order;
    DealWellFormed(order, numWorkers);
    DealFiles(order, numWorkers);
    DealBalanced(order, numWorkers, MaxSize(order));
    return Some(splits);
  }

  lemma {:induction false} EmptyFiles(splits: seq<Split>)
    requires forall i | 0 <= i < |splits| :: splits[i].files == []
    ensures AllFiles(splits) == multiset{}
  {
    if splits != [] {
      EmptyFiles(splits[..|splits| - 1]);
    }
  }

  /** Adding at most `bound` to a least-loaded worker keeps the loads balanced. */
  lemma Rebalance(loads: seq<nat>, w: nat, size: nat, bound: nat)
    requires Balanced(loads, bound) && w < |loads| && size <= bound
    requires forall j | 0 <= j < |loads| :: HeapBefore(loads, w, j)
    ensures Balanced(loads[w := loads[w] + size], bound)
  {
    var after := loads[w := loads[w] + size];
    forall i, j | 0 <= i < |after| && 0 <= j < |after| ensures after[i] <= after[j] + bound {
      assert HeapBefore(loads, w, j) && HeapBefore(loads, w, i);
    }
  }
}
