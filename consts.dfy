/** The buffer-size limit of src/lib/util/consts.ts: the exponential-then-binary search
    `findFirstPositive`, the detection of the largest allocatable buffer with its cache in
    storage, and the memoised getter. Whether a buffer of a given size can be allocated, the
    storage item and `Number` parsing are passed in. */
module Consts {
  import opened Wrappers
  import opened Text

  const GB: int := 1024 * 1024 * 1024

  /** The size assumed where there is no window (server-side rendering). */
  const NoWindowDefault: int := 2 * GB

  function Max(a: int, b: int): int {
    if a < b then b else a
  }

  function Pow2(i: nat): (p: nat)
    ensures p >= 1
  {
    if i == 0 then 1 else 2 * Pow2(i - 1)
  }

  // ---------------------------------------------------------------- findFirstPositive

  /** `x >> 1n` on a bigint: half of `x`, rounded towards minus infinity (Dafny's `/` is
      Euclidean, which rounds down for a positive divisor). */
  function Shr1(x: int): (h: int)
    ensures 2 * h <= x <= 2 * h + 1
  {
    x / 2
  }

  /** The private `d(e, g)`: a binary search of `[e, g]` probing the midpoint (`>> 1n`);
      `SearchShape` says what it answers. */
  function Search(f: int -> int, e: int, g: int): int
    decreases if g < e then 0 else g - e + 1
  {
    if g < e then -1
    else
      var c := Shr1(e + g);
      if 0 < f(c) then
        if c == e || f(c - 1) <= 0 then c else Search(f, e, c - 1)
      else Search(f, c + 1, g)
  }

  /** What any search answers, whatever the probe. */
  lemma {:induction false} SearchShape(f: int -> int, e: int, g: int)
    ensures var r := Search(f, e, g);
            r == -1 || (e <= r <= g && 0 < f(r) && (r == e || f(r - 1) <= 0))
    decreases if g < e then 0 else g - e + 1
  {
    if e <= g {
      var c := Shr1(e + g);
      Midpoint(e, g);
      if 0 < f(c) {
        if c != e && 0 < f(c - 1) {
          SearchShape(f, e, c - 1);
        }
      } else {
        SearchShape(f, c + 1, g);
      }
    }
  }

  /** `f` is monotone over the naturals with threshold `n`: non-positive below it, positive
      from it on. */
  ghost predicate IsThreshold(f: int -> int, n: nat) {
    forall x :: 0 <= x ==> (0 < f(x) <==> n <= x)
  }

  /** On a monotone `f`, the search of an interval that reaches the threshold finds the
      threshold, or the interval's start when the threshold lies before it. */
  lemma SearchFindsThreshold(f: int -> int, n: nat, e: int, g: int)
    requires IsThreshold(f, n) && 0 <= e <= g && n <= g
    ensures Search(f, e, g) == Max(n, e)
  {
    if n <= e {
      SearchAllPositive(f, n, e, g);
    } else {
      SearchInside(f, n, e, g);
    }
  }

  /** An interval past the threshold: its start. */
  lemma {:induction false} SearchAllPositive(f: int -> int, n: nat, e: int, g: int)
    requires IsThreshold(f, n) && n <= e <= g
    ensures Search(f, e, g) == e
    decreases g - e
  {
    var c := Shr1(e + g);
    Midpoint(e, g);
    assert 0 < f(c);
    if c != e {
      assert 0 < f(c - 1);
      SearchAllPositive(f, n, e, c - 1);
    }
  }

  /** An interval holding the threshold past its start: the threshold. */
  lemma {:induction false} SearchInside(f: int -> int, n: nat, e: int, g: int)
    requires IsThreshold(f, n) && 0 <= e < n <= g
    ensures Search(f, e, g) == n
    decreases g - e, 1
  {
    Midpoint(e, g);
    if n <= Shr1(e + g) {
      SearchInsideLeft(f, n, e, g);
    } else {
      SearchInsideRight(f, n, e, g);
    }
  }

  /** The threshold at or before the midpoint: found there, or further left. */
  lemma {:induction false} SearchInsideLeft(f: int -> int, n: nat, e: int, g: int)
    requires IsThreshold(f, n) && 0 <= e < n <= Shr1(e + g) <= g
    ensures Search(f, e, g) == n
    decreases g - e, 0
  {
    var c := Shr1(e + g);
    assert 0 < f(c) && c != e;
    if n <= c - 1 {
      assert 0 < f(c - 1);
      SearchGoesLeft(f, e, g);
      SearchInside(f, n, e, c - 1);
    } else {
      assert f(c - 1) <= 0;
    }
  }

  /** The threshold past the midpoint: found to its right. */
  lemma {:induction false} SearchInsideRight(f: int -> int, n: nat, e: int, g: int)
    requires IsThreshold(f, n) && 0 <= e <= Shr1(e + g) < n <= g
    ensures Search(f, e, g) == n
    decreases g - e, 0
  {
    var c := Shr1(e + g);
    assert f(c) <= 0;
    SearchGoesRight(f, e, g);
    if c + 1 == n {
      SearchAllPositive(f, n, c + 1, g);
    } else {
      SearchInside(f, n, c + 1, g);
    }
  }

  /** A positive midpoint with a positive left neighbour sends the search left. */
  lemma SearchGoesLeft(f: int -> int, e: int, g: int)
    requires e <= g && Shr1(e + g) != e && 0 < f(Shr1(e + g)) && 0 < f(Shr1(e + g) - 1)
    ensures Search(f, e, g) == Search(f, e, Shr1(e + g) - 1)
  {
  }

  /** A non-positive midpoint sends the search right. */
  lemma SearchGoesRight(f: int -> int, e: int, g: int)
    requires e <= g && f(Shr1(e + g)) <= 0
    ensures Search(f, e, g) == Search(f, Shr1(e + g) + 1, g)
  {
  }

  lemma Midpoint(e: int, g: int)
    requires e <= g
    ensures e <= Shr1(e + g) <= g
  {
  }

  /** An interval where `f` is nowhere positive gives -1. */
  lemma {:induction false} SearchWithoutPositive(f: int -> int, e: int, g: int)
    requires forall x :: e <= x <= g ==> f(x) <= 0
    ensures Search(f, e, g) == -1
    decreases if g < e then 0 else g - e + 1
  {
    if e <= g {
      var c := Shr1(e + g);
      assert f(c) <= 0;
      SearchWithoutPositive(f, c + 1, g);
    }
  }

  /** The first doubling `2^i`, counting from `i`, at which `f` is positive; `k` is one. */
  function FirstDoublingFrom(f: int -> int, i: nat, k: nat): (j: nat)
    requires i <= k && 0 < f(Pow2(k))
    ensures i <= j <= k && 0 < f(Pow2(j))
    ensures forall m :: i <= m < j ==> f(Pow2(m)) <= 0
    decreases k - i
  {
    if 0 < f(Pow2(i)) then i else FirstDoublingFrom(f, i + 1, k)
  }

  /** What `findFirstPositive(f)` returns: the doubling loop stops at the first power of two
      at which `f` is positive, then the search runs between its half and it. */
  function FirstPositive(f: int -> int, k: nat): int
    requires 0 < f(Pow2(k))
  {
    var b := Pow2(FirstDoublingFrom(f, 0, k));
    Search(f, Shr1(b), b) - 1
  }

  /** `findFirstPositive(f)` with the default start 1. The loop ends only if some power of
      two makes `f` positive; `k` names one. */
  method FindFirstPositive(f: int -> int, ghost k: nat) returns (r: int)
    requires 0 < f(Pow2(k))
    ensures r == FirstPositive(f, k)
  {
    var b := 1;
    ghost var i: nat := 0;
    while 0 >= f(b)
      invariant i <= k && b == Pow2(i)
      invariant forall m :: 0 <= m < i ==> f(Pow2(m)) <= 0
      decreases k - i
    {
      b := 2 * b;
      i := i + 1;
    }
    assert i == FirstDoublingFrom(f, 0, k) by {
      var j := FirstDoublingFrom(f, 0, k);
      assert !(j < i) && !(i < j);
    }
    r := Search(f, Shr1(b), b) - 1;
  }

  /** On a monotone `f` with threshold `n` the result is `n - 1`: the largest value at
      which `f` is not positive (-1 when there is none among the naturals). */
  lemma FirstPositiveIsBelowThreshold(f: int -> int, n: nat, k: nat)
    requires IsThreshold(f, n) && 0 < f(Pow2(k))
    ensures FirstPositive(f, k) == n - 1
  {
    var i := FirstDoublingFrom(f, 0, k);
    var b := Pow2(i);
    assert n <= b;
    if i > 0 {
      assert Shr1(b) == Pow2(i - 1);
      assert f(Pow2(i - 1)) <= 0;
    }
    SearchFindsThreshold(f, n, Shr1(b), b);
  }

  // ---------------------------------------------------------------- the buffer size

  /** The probe `findFirstPositive` is given: 0 when a buffer of the size can be
      allocated, 1 when the allocation throws. */
  function AllocationProbe(canAllocate: int -> bool): int -> int {
    (x: int) => if canAllocate(x) then 0 else 1
  }

  /** Allocation that succeeds exactly below `n` gives a probe with threshold `n`. */
  lemma AllocationThreshold(canAllocate: int -> bool, n: nat)
    requires forall x :: 0 <= x ==> (canAllocate(x) <==> x < n)
    ensures IsThreshold(AllocationProbe(canAllocate), n)
  {
  }

  /** The cached item is used: it is present and non-empty, and `Number` parses it to a
      positive number (None stands for NaN). */
  predicate CacheHit(stored: Option<string>, parse: string -> Option<real>) {
    stored.Some? && stored.value != "" && parse(stored.value).Some? && parse(stored.value).value > 0.0
  }

  /** The detection runs: there is a window and the cache is not used. */
  predicate Probes(hasWindow: bool, stored: Option<string>, parse: string -> Option<real>) {
    hasWindow && !CacheHit(stored, parse)
  }

  /** `result.toString()` for an integer. */
  function IntString(n: int): string {
    if n < 0 then "-" + NatToString(-n) else NatToString(n)
  }

  /** What `getMaxArrayBufferSize()` returns. */
  function MaxSize(hasWindow: bool, stored: Option<string>, parse: string -> Option<real>, canAllocate: int -> bool, k: nat): real
    requires Probes(hasWindow, stored, parse) ==> 0 < AllocationProbe(canAllocate)(Pow2(k))
  {
    if !hasWindow then NoWindowDefault as real
    else if CacheHit(stored, parse) then parse(stored.value).value
    else FirstPositive(AllocationProbe(canAllocate), k) as real
  }

  /** The size is 2 GiB without a window, the cached value (positive) when it is used,
      and otherwise one less than the first size that cannot be allocated. */
  lemma MaxSizeCases(hasWindow: bool, stored: Option<string>, parse: string -> Option<real>,
                     canAllocate: int -> bool, k: nat, n: nat)
    requires Probes(hasWindow, stored, parse) ==> 0 < AllocationProbe(canAllocate)(Pow2(k))
    requires forall x :: 0 <= x ==> (canAllocate(x) <==> x < n)
    ensures !hasWindow ==> MaxSize(hasWindow, stored, parse, canAllocate, k) == 2147483648.0
    ensures hasWindow && CacheHit(stored, parse) ==> MaxSize(hasWindow, stored, parse, canAllocate, k) > 0.0
    ensures Probes(hasWindow, stored, parse) ==> MaxSize(hasWindow, stored, parse, canAllocate, k) == (n - 1) as real
  {
    if Probes(hasWindow, stored, parse) {
      AllocationThreshold(canAllocate, n);
      FirstPositiveIsBelowThreshold(AllocationProbe(canAllocate), n, k);
    }
  }

  /** A cache that is used makes the allocation probe irrelevant. */
  lemma CacheHitSkipsProbe(stored: Option<string>, parse: string -> Option<real>, a: int -> bool, b: int -> bool, k: nat)
    requires CacheHit(stored, parse)
    ensures MaxSize(true, stored, parse, a, k) == MaxSize(true, stored, parse, b, k) == parse(stored.value).value
  {
  }

  /** The "maxArrayBufferSize" storage item and the module's memo `_maxArrayBufferSize`. */
  class BufferLimit {
    var stored: Option<string>
    var memo: Option<real>

    /** A fresh page: nothing memoised; `stored` is what storage holds. */
    constructor (stored: Option<string>)
      ensures this.stored == stored && memo == None
    {
      this.stored := stored;
      memo := None;
    }

    /** `getMaxArrayBufferSize()`: a detected size is written back to storage. */
    method GetMaxArrayBufferSize(hasWindow: bool, parse: string -> Option<real>, canAllocate: int -> bool, ghost k: nat)
      returns (size: real)
      requires Probes(hasWindow, stored, parse) ==> 0 < AllocationProbe(canAllocate)(Pow2(k))
      modifies this`stored
      ensures size == MaxSize(hasWindow, old(stored), parse, canAllocate, k)
      ensures Probes(hasWindow, old(stored), parse) ==>
                stored == Some(IntString(FirstPositive(AllocationProbe(canAllocate), k)))
      ensures !Probes(hasWindow, old(stored), parse) ==> stored == old(stored)
    {
      if !hasWindow {
        return NoWindowDefault as real;
      }
      var cached := stored;
      if cached.Some? && cached.value != "" {
        var parsed := parse(cached.value);
        if parsed.Some? && parsed.value > 0.0 {
          return parsed.value;
        }
      }
      var maxSize := FindFirstPositive(AllocationProbe(canAllocate), k);
      stored := Some(IntString(maxSize));
      size := maxSize as real;
    }

    /** `getMAX_ARRAY_BUFFER_SIZE()`: the size is computed on the first call only. */
    method GetMax(hasWindow: bool, parse: string -> Option<real>, canAllocate: int -> bool, ghost k: nat)
      returns (size: real)
      requires memo.None? && Probes(hasWindow, stored, parse) ==> 0 < AllocationProbe(canAllocate)(Pow2(k))
      modifies this
      ensures old(memo).Some? ==> size == old(memo).value && memo == old(memo) && stored == old(stored)
      ensures old(memo).None? ==> memo == Some(size) && size == MaxSize(hasWindow, old(stored), parse, canAllocate, k)
      ensures old(memo).None? && !Probes(hasWindow, old(stored), parse) ==> stored == old(stored)
    {
      if memo.None? {
        var s := GetMaxArrayBufferSize(hasWindow, parse, canAllocate, k);
        memo := Some(s);
      }
      size := memo.value;
    }
  }

  /** Once memoised, the getter answers the same whatever the environment does later. */
  method MemoisedOnce(stored: Option<string>, hasWindow: bool, parse: string -> Option<real>,
                      a: int -> bool, b: int -> bool, k: nat)
    returns (first: real, second: real)
    requires Probes(hasWindow, stored, parse) ==> 0 < AllocationProbe(a)(Pow2(k))
    ensures first == second == MaxSize(hasWindow, stored, parse, a, k)
  {
    var limit := new BufferLimit(stored);
    first := limit.GetMax(hasWindow, parse, a, k);
    second := limit.GetMax(hasWindow, parse, b, 0);
  }

  /** A detected positive size written to storage is what the next page load reads back,
      without probing, when `Number` reads integers back. */
  method DetectedSizeIsCached(parse: string -> Option<real>, a: int -> bool, b: int -> bool, k: nat, k': nat)
    returns (detected: real, reloaded: real)
    requires forall m :: parse(IntString(m)) == Some(m as real)
    requires 0 < AllocationProbe(a)(Pow2(k)) && 0 < AllocationProbe(b)(Pow2(k'))
    ensures detected > 0.0 ==> reloaded == detected
  {
    var limit := new BufferLimit(None);
    detected := limit.GetMaxArrayBufferSize(true, parse, a, k);
    var page := new BufferLimit(limit.stored);
    reloaded := page.GetMaxArrayBufferSize(true, parse, b, k');
  }
}
