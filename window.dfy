/** Go's 64-bit Unix timestamps and the "recent" window `timestamp >=
    now - minutes*60` shared by the transaction and alert stores. */
module Window {

  const TwoTo63: int := 0x8000_0000_0000_0000
  const TwoTo64: int := 0x1_0000_0000_0000_0000

  /** Go's `int64`. */
  newtype int64 = x: int | -0x8000_0000_0000_0000 <= x < 0x8000_0000_0000_0000

  /** Two's-complement wrap-around of a Go `int64` operation whose exact
      result is `x`. */
  function Wrap(x: int): (r: int64)
    ensures -TwoTo63 <= x < TwoTo63 ==> r as int == x
  {
    ((x + TwoTo63) % TwoTo64 - TwoTo63) as int64
  }

  /** The cutoff as the Go code computes it: `minutes*60` and the subtraction
      both wrap on overflow. The two wraps compose into one: the result is the
      exact cutoff taken modulo 2^64. */
  function CutoffAsWritten(now: int64, minutes: int64): (r: int64)
    ensures r == Wrap(Cutoff(now, minutes))
  {
    var b := (minutes as int) * 60;
    var k := (b + TwoTo63) / TwoTo64;
    assert Wrap(b) as int == b - k * TwoTo64;
    WrapShift(now as int - b, k);
    assert now as int - Wrap(b) as int == (now as int - b) + k * TwoTo64;
    Wrap(now as int - Wrap(b) as int)
  }

  /** The cutoff the code evidently intends: the instant `minutes` minutes
      before `now`, computed without overflow. */
  function Cutoff(now: int64, minutes: int64): (c: int)
    ensures minutes >= 0 ==> c <= now as int
    ensures minutes <= 0 ==> c >= now as int
  {
    now as int - (minutes as int) * 60
  }

  lemma WrapShift(x: int, k: int)
    ensures Wrap(x + k * TwoTo64) == Wrap(x)
  {
    var q := (x + TwoTo63) / TwoTo64;
    var r := (x + TwoTo63) % TwoTo64;
    assert x + k * TwoTo64 + TwoTo63 == (q + k) * TwoTo64 + r;
  }

  /** Wherever the exact cutoff fits in an `int64`, the wrapping computation
      gives that same value. */
  lemma CutoffAsWrittenExact(now: int64, minutes: int64)
    requires -TwoTo63 <= Cutoff(now, minutes) < TwoTo63
    ensures CutoffAsWritten(now, minutes) as int == Cutoff(now, minutes)
  {
  }

  /** As written, one more minute of window can move the cutoff from the far
      past to the far future: a record stamped `now` is inside the window of
      153722867309246263 minutes and outside that of one minute more. */
  lemma AsWrittenWindowShrinks()
    ensures var now: int64 := 1_700_000_000;
            var m: int64 := 153722867309246263;
            && CutoffAsWritten(now, m) as int <= now as int
            && now as int < CutoffAsWritten(now, m + 1) as int
  {
    var now: int64 := 1_700_000_000;
    var m: int64 := 153722867309246263;
    // minutes*60 overflows for both m and m + 1
    WrapBy(m as int * 60, -1);
    WrapBy((m as int + 1) * 60, -1);
    // the subtraction overflows back into range only for m
    WrapBy(now as int - Wrap(m as int * 60) as int, -1);
    WrapBy(now as int - Wrap((m as int + 1) * 60) as int, 0);
  }

  /** `Wrap(x)` is `x` shifted by `k` multiples of 2^64, when that lands in range. */
  lemma WrapBy(x: int, k: int)
    requires -TwoTo63 <= x + k * TwoTo64 < TwoTo63
    ensures Wrap(x) as int == x + k * TwoTo64
  {
    WrapShift(x, k);
  }

  /** The records of `s` stamped at or after `cutoff`, in their order in `s`. */
  function Since<T(!new)>(s: seq<T>, stamp: T -> int64, cutoff: int): (r: seq<T>)
    ensures |r| <= |s|
    ensures forall x :: x in r <==> x in s && stamp(x) as int >= cutoff
  {
    if s == [] then []
    else
      var init := s[..|s| - 1];
      var last := s[|s| - 1];
      assert s == init + [last];
      var kept := Since(init, stamp, cutoff);
      if stamp(last) as int >= cutoff then kept + [last] else kept
  }

  lemma SinceStep<T(!new)>(s: seq<T>, x: T, stamp: T -> int64, cutoff: int)
    ensures Since(s + [x], stamp, cutoff) ==
            if stamp(x) as int >= cutoff then Since(s, stamp, cutoff) + [x] else Since(s, stamp, cutoff)
  {
    assert (s + [x])[..|s|] == s;
  }

  /** Each record occurs in the window as often as in `s` if it meets the
      cutoff, and not at all otherwise. */
  lemma {:induction false} SinceCount<T(!new)>(s: seq<T>, stamp: T -> int64, cutoff: int)
    ensures forall x :: multiset(Since(s, stamp, cutoff))[x] ==
                        if stamp(x) as int >= cutoff then multiset(s)[x] else 0
  {
    if s != [] {
      var init := s[..|s| - 1];
      SinceCount(init, stamp, cutoff);
      assert s == init + [s[|s| - 1]];
    }
  }

  /** The window, as a multiset, depends only on the records and not on
      their order. */
  lemma SincePermutation<T(!new)>(s: seq<T>, t: seq<T>, stamp: T -> int64, cutoff: int)
    requires multiset(s) == multiset(t)
    ensures multiset(Since(s, stamp, cutoff)) == multiset(Since(t, stamp, cutoff))
  {
    SinceCount(s, stamp, cutoff);
    SinceCount(t, stamp, cutoff);
  }

  /** Narrowing the window is filtering the wider result again: the records
      of the narrow window are exactly those of the wide one that also meet
      the later cutoff, in the same order. */
  lemma {:induction false} SinceNarrows<T(!new)>(s: seq<T>, stamp: T -> int64, earlier: int, later: int)
    requires earlier <= later
    ensures Since(Since(s, stamp, earlier), stamp, later) == Since(s, stamp, later)
  {
    if s != [] {
      var init := s[..|s| - 1];
      var last := s[|s| - 1];
      SinceNarrows(init, stamp, earlier, later);
      var wide := Since(init, stamp, earlier);
      if stamp(last) as int >= earlier {
        assert (wide + [last])[..|wide + [last]| - 1] == wide;
      }
    }
  }

  /** Raising `minutes` never drops a record from the window. */
  lemma WindowGrowsWithMinutes<T(!new)>(s: seq<T>, stamp: T -> int64, now: int64, fewer: int64, more: int64)
    requires fewer <= more
    ensures multiset(Since(s, stamp, Cutoff(now, fewer))) <= multiset(Since(s, stamp, Cutoff(now, more)))
  {
    SinceNarrows(s, stamp, Cutoff(now, more), Cutoff(now, fewer));
    SinceSubMultiset(Since(s, stamp, Cutoff(now, more)), stamp, Cutoff(now, fewer));
  }

  lemma {:induction false} SinceSubMultiset<T(!new)>(s: seq<T>, stamp: T -> int64, cutoff: int)
    ensures multiset(Since(s, stamp, cutoff)) <= multiset(s)
  {
    if s != [] {
      var init := s[..|s| - 1];
      SinceSubMultiset(init, stamp, cutoff);
      assert s == init + [s[|s| - 1]];
    }
  }
}
