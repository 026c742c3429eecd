/**
 * `check_streetview_availability`: one worker asks the Street View metadata
 * endpoint about each of its units in turn and records the answers.  The
 * whole list of answers gathered so far is upserted (keyed by unit id) after
 * every hundredth unit; a network failure sleeps and doubles the back-off,
 * and the worker exits once the back-off would pass 60 seconds; any other
 * failure skips the unit.  After the loop the connection only commits.
 */
module StreetviewCheck {
  import opened Wrappers

  /** One unit to check: `id, lat, lng`. */
  datatype Unit = Unit(id: string, lat: real, lng: real)

  /** What the metadata call for one unit did. */
  datatype Probe = Avail(available: bool) | NetworkFailure | OtherFailure

  datatype Checked = Checked(id: string, avail: bool)

  /**
   * The worker's state: the answers gathered, the results table, the next
   * unit's index, the back-off, the sleeps taken, and whether it exited.
   */
  datatype Worker = Worker(
    results: seq<Checked>, stored: map<string, bool>, next: nat,
    sleepTime: nat, sleeps: seq<nat>, exited: bool)

  const MaxSleep: nat := 60
  const FlushEvery: nat := 100

  /** `SQL_UPSERT_RESULT` over a list of answers: insert or replace, in order. */
  function Upsert(stored: map<string, bool>, results: seq<Checked>): map<string, bool>
    decreases |results|
  {
    if results == [] then stored
    else Upsert(stored, results[..|results| - 1])[results[|results| - 1].id := results[|results| - 1].avail]
  }

  /** A flush follows the answer for unit `i` when `i` is a positive multiple of 100. */
  predicate FlushesAt(i: nat)
  {
    i % FlushEvery == 0 && i > 0
  }

  /** One iteration of the loop, for unit `i` of the worker's list. */
  function Step(w: Worker, u: Unit, p: Probe): Worker
  {
    match p
    case Avail(b) =>
      var results := w.results + [Checked(u.id, b)];
      w.(results := results, stored := if FlushesAt(w.next) then Upsert(w.stored, results) else w.stored, next := w.next + 1)
    case NetworkFailure =>
      w.(sleeps := w.sleeps + [w.sleepTime], sleepTime := 2 * w.sleepTime,
         exited := 2 * w.sleepTime > MaxSleep, next := w.next + 1)
    case OtherFailure => w.(next := w.next + 1)
  }

  function Start(stored: map<string, bool>): Worker
  {
    Worker([], stored, 0, 1, [], false)
  }

  /** The worker after its first `n` units, or where it exited. */
  function RunFirst(data: seq<Unit>, probe: nat -> Probe, stored: map<string, bool>, n: nat): Worker
    requires n <= |data|
  {
    if n == 0 then Start(stored)
    else
      var w := RunFirst(data, probe, stored, n - 1);
      if w.exited then w else Step(w, data[n - 1], probe(n - 1))
  }

  /** The worker's loop; `probe(i)` is what the call for unit `i` does. */
  method CheckStreetviewAvailability(data: seq<Unit>, probe: nat -> Probe, stored0: map<string, bool>) returns (w: Worker)
    ensures w == RunFirst(data, probe, stored0, |data|)
  {
    w := Start(stored0);
    var i := 0;
    while i < |data|
      invariant 0 <= i <= |data|
      invariant w == RunFirst(data, probe, stored0, i)
    {
      if w.exited {
        RunStopsAtExit(data, probe, stored0, i, |data|);
        return;
      }
      w := Step(w, data[i], probe(i));
      i := i + 1;
    }
  }

  /** After an exit nothing more happens. */
  lemma {:induction false} RunStopsAtExit(data: seq<Unit>, probe: nat -> Probe, stored: map<string, bool>, n: nat, m: nat)
    requires n <= m <= |data| && RunFirst(data, probe, stored, n).exited
    ensures RunFirst(data, probe, stored, m) == RunFirst(data, probe, stored, n)
    decreases m - n
  {
    if n < m {
      RunStopsAtExit(data, probe, stored, n, m - 1);
    }
  }

  // ---------------------------------------------------------------------------
  // The back-off

  function Pow2(k: nat): nat
  {
    if k == 0 then 1 else 2 * Pow2(k - 1)
  }

  /** The sleeps 1, 2, 4, … of the first `k` network failures. */
  function Doubling(k: nat): (s: seq<nat>)
    ensures |s| == k
  {
    if k == 0 then [] else Doubling(k - 1) + [Pow2(k - 1)]
  }

  /**
   * The back-off is never reset: the `k`-th network failure of the run sleeps
   * `2^(k-1)` seconds, and the sixth, after sleeping 32, ends the worker.
   */
  predicate Backoff(w: Worker)
  {
    |w.sleeps| <= 6 && w.sleeps == Doubling(|w.sleeps|) && w.sleepTime == Pow2(|w.sleeps|) &&
    (w.exited <==> |w.sleeps| == 6)
  }

  lemma {:induction false} RunBackoff(data: seq<Unit>, probe: nat -> Probe, stored: map<string, bool>, n: nat)
    requires n <= |data|
    ensures Backoff(RunFirst(data, probe, stored, n))
  {
    if n > 0 {
      RunBackoff(data, probe, stored, n - 1);
      var w := RunFirst(data, probe, stored, n - 1);
      if !w.exited && probe(n - 1).NetworkFailure? {
        var k := |w.sleeps|;
        assert k < 6;
        assert Pow2(k + 1) == 2 * Pow2(k);
        assert Pow2(5) == 32 && Pow2(6) == 64;
        Pow2Grows(k);
      }
    }
  }

  lemma Pow2Grows(k: nat)
    requires k < 6
    ensures 2 * Pow2(k) > MaxSleep <==> k == 5
  {
    assert Pow2(0) == 1 && Pow2(1) == 2 && Pow2(2) == 4 && Pow2(3) == 8 && Pow2(4) == 16 && Pow2(5) == 32;
  }

  // ---------------------------------------------------------------------------
  // Answers and flushes

  /** The answers of the first `n` units, in order; a failed call leaves none and is not retried. */
  function Answers(data: seq<Unit>, probe: nat -> Probe, n: nat): seq<Checked>
    requires n <= |data|
  {
    if n == 0 then []
    else Answers(data, probe, n - 1) + (if probe(n - 1).Avail? then [Checked(data[n - 1].id, probe(n - 1).available)] else [])
  }

  /** How many units the last flush among the first `n` covered (0 when none was flushed). */
  function LastFlush(probe: nat -> Probe, n: nat): (k: nat)
    ensures k <= n
  {
    if n == 0 then 0 else if FlushesAt(n - 1) && probe(n - 1).Avail? then n else LastFlush(probe, n - 1)
  }

  /**
   * The worker's answers are those of every unit it reached; what the
   * results table holds is every answer up to the last flush, the later
   * ones never being written.
   */
  predicate Gathered(data: seq<Unit>, probe: nat -> Probe, stored: map<string, bool>, w: Worker)
  {
    w.next <= |data| &&
    w.results == Answers(data, probe, w.next) &&
    w.stored == Upsert(stored, Answers(data, probe, LastFlush(probe, w.next)))
  }

  lemma {:induction false} RunGathers(data: seq<Unit>, probe: nat -> Probe, stored: map<string, bool>, n: nat)
    requires n <= |data|
    ensures Gathered(data, probe, stored, RunFirst(data, probe, stored, n))
    ensures !RunFirst(data, probe, stored, n).exited ==> RunFirst(data, probe, stored, n).next == n
  {
    if n > 0 {
      RunGathers(data, probe, stored, n - 1);
      var w := RunFirst(data, probe, stored, n - 1);
      if !w.exited {
        StepGathers(data, probe, stored, w);
      }
    }
  }

  /** One unit more keeps the answers and the table as described. */
  lemma StepGathers(data: seq<Unit>, probe: nat -> Probe, stored: map<string, bool>, w: Worker)
    requires Gathered(data, probe, stored, w) && w.next < |data|
    ensures Gathered(data, probe, stored, Step(w, data[w.next], probe(w.next)))
    ensures Step(w, data[w.next], probe(w.next)).next == w.next + 1
  {
    var i := w.next;
    assert Answers(data, probe, i + 1) == w.results + (if probe(i).Avail? then [Checked(data[i].id, probe(i).available)] else []);
    if FlushesAt(i) && probe(i).Avail? {
      assert LastFlush(probe, i + 1) == i + 1;
      var k := LastFlush(probe, i);
      var a := Answers(data, probe, i + 1);
      AnswersPrefix(data, probe, k, i + 1);
      assert Answers(data, probe, k) + a[|Answers(data, probe, k)|..] == a;
      UpsertAgain(stored, Answers(data, probe, k), a[|Answers(data, probe, k)|..]);
    } else {
      assert LastFlush(probe, i + 1) == LastFlush(probe, i);
    }
  }

  /** The answers of fewer units are a prefix of those of more. */
  lemma {:induction false} AnswersPrefix(data: seq<Unit>, probe: nat -> Probe, k: nat, n: nat)
    requires k <= n <= |data|
    ensures Answers(data, probe, k) <= Answers(data, probe, n)
    decreases n - k
  {
    if k < n {
      AnswersPrefix(data, probe, k, n - 1);
    }
  }

  /** Upserting a list again, or a longer one starting with it, is the same as upserting the longer one once. */
  lemma {:induction false} UpsertAgain(stored: map<string, bool>, r1: seq<Checked>, r2: seq<Checked>)
    ensures Upsert(Upsert(stored, r1), r1 + r2) == Upsert(stored, r1 + r2)
    decreases |r2|
  {
    if r2 == [] {
      assert r1 + r2 == r1;
      UpsertTwice(stored, r1);
    } else {
      var init := r2[..|r2| - 1];
      UpsertAgain(stored, r1, init);
      assert (r1 + r2)[..|r1 + r2| - 1] == r1 + init;
    }
  }

  lemma {:induction false} UpsertTwice(stored: map<string, bool>, r: seq<Checked>)
    ensures Upsert(Upsert(stored, r), r) == Upsert(stored, r)
  {
    UpsertHolds(stored, r);
    UpsertHolds(Upsert(stored, r), r);
    var a, b := Upsert(Upsert(stored, r), r), Upsert(stored, r);
    assert a.Keys == b.Keys;
    forall id | id in a ensures a[id] == b[id] {
    }
  }

  /** A key's value after upserting: the last answer for it, or what it held before. */
  function LastFor(r: seq<Checked>, id: string): Option<bool>
    decreases |r|
  {
    if r == [] then None
    else if r[|r| - 1].id == id then Some(r[|r| - 1].avail)
    else LastFor(r[..|r| - 1], id)
  }

  lemma {:induction false} UpsertHolds(stored: map<string, bool>, r: seq<Checked>)
    ensures forall id :: id in Upsert(stored, r) <==> id in stored || LastFor(r, id).Some?
    ensures forall id | id in Upsert(stored, r) ::
      Upsert(stored, r)[id] == (if LastFor(r, id).Some? then LastFor(r, id).value else stored[id])
    decreases |r|
  {
    if r != [] {
      UpsertHolds(stored, r[..|r| - 1]);
    }
  }
}
