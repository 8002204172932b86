/**
 * The generic helpers the sync engine relies on: splitting a list into
 * fixed-size chunks, the capped exponential delay, and retrying an operation
 * whose outcomes are given, call by call, as a script.
 */
module Utils {

  function Min(a: int, b: int): (m: int) { if a <= b then a else b }

  // ---------------------------------------------------------------------------
  // Chunking

  /** The chunks of `s`, each `size` long except possibly the last one. */
  function Chunks<T>(s: seq<T>, size: int): (chunks: seq<seq<T>>)
    requires size > 0 || s == []
    decreases |s|
  {
    if s == [] then []
    else [s[..Min(size, |s|)]] + Chunks(s[Min(size, |s|)..], size)
  }

  /** The chunks laid end to end. */
  function Flatten<T>(chunks: seq<seq<T>>): (s: seq<T>)
  {
    if chunks == [] then [] else chunks[0] + Flatten(chunks[1..])
  }

  /** Splits `items` (the source's `array`) into consecutive slices of `chunkSize` elements. The loop
      only stops for a positive chunk size or an empty input. */
  method ChunkArray<T>(items: seq<T>, chunkSize: int) returns (result: seq<seq<T>>)
    requires chunkSize > 0 || items == []
    ensures result == Chunks(items, chunkSize)
  {
    result := [];
    var i := 0;
    while i < |items|
      invariant 0 <= i
      invariant result + Chunks(items[Min(i, |items|)..], chunkSize) == Chunks(items, chunkSize)
      decreases |items| - i
    {
      var rest := items[i..];
      assert rest[..Min(chunkSize, |rest|)] == items[i..Min(i + chunkSize, |items|)];
      assert rest[Min(chunkSize, |rest|)..] == items[Min(i + chunkSize, |items|)..];
      result := result + [items[i..Min(i + chunkSize, |items|)]];
      i := i + chunkSize;
    }
  }

  /** Laying the chunks end to end gives back the input, in order. */
  lemma {:induction false} ChunksFlatten<T>(s: seq<T>, size: int)
    requires size > 0 || s == []
    ensures Flatten(Chunks(s, size)) == s
    decreases |s|
  {
    if s != [] {
      var k := Min(size, |s|);
      ChunksFlatten(s[k..], size);
      assert s == s[..k] + s[k..];
    }
  }

  /** Every chunk is non-empty and at most `size` long, and every chunk but the
      last is exactly `size` long. */
  lemma {:induction false} ChunksSizes<T>(s: seq<T>, size: int)
    requires size > 0
    ensures forall i :: 0 <= i < |Chunks(s, size)| ==> 1 <= |Chunks(s, size)[i]| <= size
    ensures forall i :: 0 <= i < |Chunks(s, size)| - 1 ==> |Chunks(s, size)[i]| == size
    decreases |s|
  {
    if s != [] {
      var k := Min(size, |s|);
      ChunksSizes(s[k..], size);
      if k < size {
        assert s[k..] == [];
      }
    }
  }

  /** There are ceil(|s| / size) chunks, that is, the fewest chunks of `size`
      elements that hold all of `s`; none for an empty input. */
  lemma {:induction false} ChunksCount<T>(s: seq<T>, size: int)
    requires size > 0
    ensures |Chunks(s, size)| * size >= |s|
    ensures |s| > 0 ==> (|Chunks(s, size)| - 1) * size < |s|
    ensures s == [] <==> Chunks(s, size) == []
    decreases |s|
  {
    if s != [] {
      var k := Min(size, |s|);
      ChunksCount(s[k..], size);
      var n := |Chunks(s[k..], size)|;
      assert |Chunks(s, size)| == n + 1;
      assert (n + 1) * size == n * size + size;
      if k < size {
        assert s[k..] == [];
      }
    }
  }

  /** The index of the `chunkArray` loop after `turns` turns, as written: it
      starts at 0 and each turn adds `chunkSize`, whatever its sign. A size of
      0 or less never moves it above 0. */
  function ChunkIndexAfter(chunkSize: int, turns: nat): (i: int)
    ensures chunkSize <= 0 ==> i <= 0
    ensures chunkSize > 0 ==> i >= turns
  {
    if turns == 0 then 0 else ChunkIndexAfter(chunkSize, turns - 1) + chunkSize
  }

  /** As written, a chunk size of 0 or less on a non-empty input never ends the
      loop: its test `i < array.length` still holds after every turn. */
  lemma ChunkLoopNeverEnds(length: nat, chunkSize: int)
    requires chunkSize <= 0 && length > 0
    ensures forall turns: nat :: ChunkIndexAfter(chunkSize, turns) < length
  {
  }

  // ---------------------------------------------------------------------------
  // Backoff delay

  const DelayCapMs: nat := 1000
  const DelayBaseMs: nat := 100

  function Pow2(i: nat): (p: nat)
    ensures p >= 1
  {
    if i == 0 then 1 else 2 * Pow2(i - 1)
  }

  /** The ceiling on the wait before the retry that follows `attempts` calls:
      the base doubled once per call, but never more than the cap. */
  function DelayCap(attempts: nat): (c: nat)
    ensures DelayBaseMs <= c <= DelayCapMs
  {
    Min(DelayCapMs, DelayBaseMs * Pow2(attempts))
  }

  /** A random fraction of a positive ceiling stays below it. */
  function Fraction(random: real, ceiling: nat): (d: real)
    requires 0.0 <= random < 1.0 && ceiling > 0
    ensures 0.0 <= d < ceiling as real
  {
    random * ceiling as real
  }

  /** The wait itself (`calculateExponentialBackoffDelayWithJitter`): a random
      fraction of the ceiling, so it is never negative and stays below the
      ceiling and below the cap. */
  function Delay(attempts: nat, random: real): (d: real)
    requires 0.0 <= random < 1.0
    ensures 0.0 <= d < DelayCap(attempts) as real
    ensures d < DelayCapMs as real
  {
    Fraction(random, DelayCap(attempts))
  }

  lemma {:induction false} Pow2Monotonic(i: nat, j: nat)
    requires i <= j
    ensures Pow2(i) <= Pow2(j)
    decreases j
  {
    if i < j {
      Pow2Monotonic(i, j - 1);
    }
  }

  /** The ceiling doubles (200, 400, 800 ms for one, two, three calls) until it
      reaches the cap at four calls, and never shrinks. */
  lemma DelayCapGrowth(attempts: nat)
    ensures attempts <= 3 ==> DelayCap(attempts) == DelayBaseMs * Pow2(attempts)
    ensures attempts >= 4 ==> DelayCap(attempts) == DelayCapMs
    ensures DelayCap(attempts) <= DelayCap(attempts + 1)
  {
    if attempts >= 4 {
      Pow2Monotonic(4, attempts);
    } else {
      Pow2Monotonic(attempts, 3);
    }
    Pow2Monotonic(attempts, attempts + 1);
  }

  // ---------------------------------------------------------------------------
  // Retrying

  /** How one call of the retried operation settled. */
  datatype Attempt<+T, +E> = Resolved(value: T) | Rejected(error: E)

  /** The largest number of calls: the first one and `maxAttempts` retries.
      A negative budget still allows the first call. */
  function MaxCalls(maxAttempts: int): (n: nat)
  {
    if maxAttempts < 0 then 1 else maxAttempts + 1
  }

  /** The number of calls made in all, once `made` calls have been made and the
      last of them was `fn(made - 1)`. */
  function CallsFrom<T, E>(fn: nat -> Attempt<T, E>, maxAttempts: int, made: nat): (n: nat)
    requires made >= 1
    ensures n >= made
    decreases maxAttempts - made
  {
    if fn(made - 1).Resolved? || made > maxAttempts then made
    else CallsFrom(fn, maxAttempts, made + 1)
  }

  /** The number of times the operation is called, where `fn(k)` is how the
      call numbered k (from 0) settles. */
  function Calls<T, E>(fn: nat -> Attempt<T, E>, maxAttempts: int): (n: nat)
    ensures n >= 1
  {
    CallsFrom(fn, maxAttempts, 1)
  }

  /** What the retrying promise settles to: the outcome of the last call. */
  function Retried<T, E>(fn: nat -> Attempt<T, E>, maxAttempts: int): (r: Attempt<T, E>)
  {
    fn(Calls(fn, maxAttempts) - 1)
  }

  lemma {:induction false} CallsFromBounds<T, E>(fn: nat -> Attempt<T, E>, maxAttempts: int, made: nat)
    requires 1 <= made <= MaxCalls(maxAttempts)
    requires forall k :: 0 <= k < made - 1 ==> fn(k).Rejected?
    ensures made <= CallsFrom(fn, maxAttempts, made) <= MaxCalls(maxAttempts)
    ensures forall k :: 0 <= k < CallsFrom(fn, maxAttempts, made) - 1 ==> fn(k).Rejected?
    ensures fn(CallsFrom(fn, maxAttempts, made) - 1).Rejected? ==>
      CallsFrom(fn, maxAttempts, made) == MaxCalls(maxAttempts)
    decreases maxAttempts - made
  {
    if !(fn(made - 1).Resolved? || made > maxAttempts) {
      CallsFromBounds(fn, maxAttempts, made + 1);
    }
  }

  /** At least one call and at most `maxAttempts + 1`; every call before the
      last one failed; and a retrying promise that rejects has used the whole
      budget. */
  lemma CallsBounds<T, E>(fn: nat -> Attempt<T, E>, maxAttempts: int)
    ensures 1 <= Calls(fn, maxAttempts) <= MaxCalls(maxAttempts)
    ensures Retried(fn, maxAttempts) == fn(Calls(fn, maxAttempts) - 1)
    ensures forall k :: 0 <= k < Calls(fn, maxAttempts) - 1 ==> fn(k).Rejected?
    ensures Retried(fn, maxAttempts).Rejected? ==> Calls(fn, maxAttempts) == MaxCalls(maxAttempts)
  {
    CallsFromBounds(fn, maxAttempts, 1);
  }

  /** If every call fails, the operation is called `maxAttempts + 1` times
      (once when the budget is 0) and the promise rejects with the last error. */
  lemma AlwaysFailing<T, E>(fn: nat -> Attempt<T, E>, maxAttempts: int)
    requires forall k :: fn(k).Rejected?
    ensures Calls(fn, maxAttempts) == MaxCalls(maxAttempts)
    ensures maxAttempts >= 0 ==> Calls(fn, maxAttempts) == maxAttempts + 1
    ensures Retried(fn, maxAttempts) == fn(MaxCalls(maxAttempts) - 1)
  {
    CallsFromBounds(fn, maxAttempts, 1);
  }

  /** The first call that succeeds, within the budget, settles the promise with
      its value, and no further call is made. */
  lemma {:induction false} FirstSuccess<T, E>(fn: nat -> Attempt<T, E>, maxAttempts: int, j: nat)
    requires j < MaxCalls(maxAttempts)
    requires fn(j).Resolved?
    requires forall k :: 0 <= k < j ==> fn(k).Rejected?
    ensures Calls(fn, maxAttempts) == j + 1
    ensures Retried(fn, maxAttempts) == fn(j)
  {
    CallsFromBounds(fn, maxAttempts, 1);
  }

  /** Calls `fn` until a call succeeds or the retry budget is spent, waiting a
      jittered, exponentially growing delay between calls. `fn(k)` is how the
      call numbered k settles and `random(k)` is the random draw for the wait
      after it. Returns how the promise settles, how many calls were made and
      the waits, in order. */
  method ExponentialBackoff<T, E>(fn: nat -> Attempt<T, E>, maxAttempts: int, random: nat -> real)
    returns (r: Attempt<T, E>, calls: nat, delays: seq<real>)
    requires forall k :: 0.0 <= random(k) < 1.0
    ensures calls >= 1 && calls == Calls(fn, maxAttempts) && r == fn(calls - 1)
    ensures |delays| == calls - 1
    ensures forall j :: 0 <= j < |delays| ==> delays[j] == Delay(j + 1, random(j))
  {
    var attempts := 1;
    var out := fn(0);
    delays := [];
    while out.Rejected? && attempts <= maxAttempts
      invariant 1 <= attempts
      invariant out == fn(attempts - 1)
      invariant CallsFrom(fn, maxAttempts, attempts) == Calls(fn, maxAttempts)
      invariant |delays| == attempts - 1
      invariant forall j :: 0 <= j < |delays| ==> delays[j] == Delay(j + 1, random(j))
      decreases maxAttempts - attempts
    {
      delays := delays + [Delay(attempts, random(attempts - 1))];
      attempts := attempts + 1;
      out := fn(attempts - 1);
    }
    r, calls := out, attempts;
  }
}
