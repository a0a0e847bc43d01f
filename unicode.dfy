/** The code-point helpers `ulength` and `uslice` of `src/utils.ts`.

    A JavaScript string is a sequence of UTF-16 code units. Spreading it
    (`[...s]`) goes through the string iterator, which yields one item per
    code point: a high surrogate immediately followed by a low surrogate is
    one item (section 3.9, D91, of the Unicode Standard, as read by the
    CodePointAt operation of ECMA-262); every other code unit, a lone
    surrogate included, is an item of its own. */
module Unicode {
  import opened Wrappers
  import opened Utils

  type CodeUnit = u: int | 0 <= u < 0x1_0000

  /** A JavaScript string. */
  type String16 = seq<CodeUnit>

  predicate IsHighSurrogate(u: CodeUnit) { 0xD800 <= u <= 0xDBFF }

  predicate IsLowSurrogate(u: CodeUnit) { 0xDC00 <= u <= 0xDFFF }

  /** `s` opens with a surrogate pair. */
  predicate StartsWithPair(s: String16) {
    |s| >= 2 && IsHighSurrogate(s[0]) && IsLowSurrogate(s[1])
  }

  /** A surrogate pair occurs somewhere in `s`. */
  predicate HasSurrogatePair(s: String16) {
    exists j | 0 <= j < |s| - 1 :: IsHighSurrogate(s[j]) && IsLowSurrogate(s[j + 1])
  }

  /** One item of `[...s]`: a whole surrogate pair or a single code unit. */
  predicate IsCodePoint(c: String16) {
    |c| == 1 || (|c| == 2 && StartsWithPair(c))
  }

  /** `items.join("")`. */
  function Join(items: seq<String16>): String16 {
    if items == [] then [] else items[0] + Join(items[1..])
  }

  lemma {:induction false} JoinAppend(xs: seq<String16>, ys: seq<String16>)
    ensures Join(xs + ys) == Join(xs) + Join(ys)
  {
    if xs == [] {
      assert xs + ys == ys;
    } else {
      assert (xs + ys)[1..] == xs[1..] + ys;
      JoinAppend(xs[1..], ys);
    }
  }

  /** `[...s]`: the items the string iterator yields. */
  function CodePoints(s: String16): seq<String16>
    decreases |s|
  {
    if s == [] then []
    else
      var w := if StartsWithPair(s) then 2 else 1;
      [s[..w]] + CodePoints(s[w..])
  }

  /** Joining the items of `[...s]` gives back `s`, each item is a whole
      code point, and there are at most as many items as code units. */
  lemma {:induction false} CodePointsSpec(s: String16)
    ensures Join(CodePoints(s)) == s
    ensures forall k | 0 <= k < |CodePoints(s)| :: IsCodePoint(CodePoints(s)[k])
    ensures |CodePoints(s)| <= |s|
    decreases |s|
  {
    if s != [] {
      var w := if StartsWithPair(s) then 2 else 1;
      var r := CodePoints(s);
      CodePointsSpec(s[w..]);
      assert r[1..] == CodePoints(s[w..]);
      assert s == s[..w] + s[w..];
      forall k | 0 <= k < |r|
        ensures IsCodePoint(r[k])
      {
        if k > 0 {
          assert r[k] == r[1..][k - 1];
        }
      }
    }
  }

  /** `ulength(s)`, that is `[...s].length`. */
  function ULength(s: String16): nat {
    |CodePoints(s)|
  }

  /** The code-point positions `[from, to)` that `[...s].slice(start, end)`
      selects: JavaScript's `slice` clamps both bounds to the length and an
      absent `end` means the length. */
  function SliceFrom(s: String16, start: nat): nat {
    Min(start, ULength(s))
  }

  function SliceTo(s: String16, end: Option<nat>): nat {
    match end
    case None => ULength(s)
    case Some(e) => Min(e, ULength(s))
  }

  /** `uslice(s, start, end)`, that is `[...s].slice(start, end).join("")`. */
  function USlice(s: String16, start: nat, end: Option<nat>): String16 {
    var from, to := SliceFrom(s, start), SliceTo(s, end);
    if from < to then Join(CodePoints(s)[from..to]) else []
  }

  /** `ulength` counts a surrogate pair as one unit, so it is at most the
      number of code units, and equal to it exactly when `s` holds no
      surrogate pair. */
  lemma {:induction false} ULengthCountsPairsOnce(s: String16)
    ensures ULength(s) <= |s|
    ensures ULength(s) == |s| <==> !HasSurrogatePair(s)
    decreases |s|
  {
    if s != [] {
      if StartsWithPair(s) {
        CodePointsSpec(s[2..]);
        assert ULength(s) == 1 + ULength(s[2..]);
        assert HasSurrogatePair(s) by {
          assert IsHighSurrogate(s[0]) && IsLowSurrogate(s[1]);
        }
      } else {
        ULengthCountsPairsOnce(s[1..]);
        assert ULength(s) == 1 + ULength(s[1..]);
        PairsPastFirstUnit(s);
      }
    }
  }

  /** When `s` does not open with a surrogate pair, its pairs are those of `s[1..]`. */
  lemma PairsPastFirstUnit(s: String16)
    requires s != [] && !StartsWithPair(s)
    ensures HasSurrogatePair(s) <==> HasSurrogatePair(s[1..])
  {
    var t := s[1..];
    if HasSurrogatePair(s) {
      var j :| 0 <= j < |s| - 1 && IsHighSurrogate(s[j]) && IsLowSurrogate(s[j + 1]);
      assert IsHighSurrogate(t[j - 1]) && IsLowSurrogate(t[j]);
    }
    if HasSurrogatePair(t) {
      var j :| 0 <= j < |t| - 1 && IsHighSurrogate(t[j]) && IsLowSurrogate(t[j + 1]);
      assert IsHighSurrogate(s[j + 1]) && IsLowSurrogate(s[j + 2]);
    }
  }

  /** Joining the first `k` items of `[...s]` gives a prefix of `s`. */
  lemma JoinedPrefixIsPrefix(s: String16, k: nat)
    requires k <= |CodePoints(s)|
    ensures Join(CodePoints(s)[..k]) <= s
  {
    var cps := CodePoints(s);
    CodePointsSpec(s);
    assert cps == cps[..k] + cps[k..];
    JoinAppend(cps[..k], cps[k..]);
  }

  /** Decoding a run of consecutive items of `[...s]`, joined back into a
      string, gives exactly those items again: cutting `s` on item
      boundaries never splits nor creates a surrogate pair. */
  lemma {:induction false} DecodeJoinedRun(s: String16, a: nat, b: nat)
    requires a <= b <= |CodePoints(s)|
    ensures CodePoints(Join(CodePoints(s)[a..b])) == CodePoints(s)[a..b]
    decreases |s|
  {
    var cps := CodePoints(s);
    if s == [] || a == b {
      assert cps[a..b] == [];
    } else {
      var w := if StartsWithPair(s) then 2 else 1;
      var rest := s[w..];
      var rcps := CodePoints(rest);
      assert cps == [s[..w]] + rcps;
      if a > 0 {
        assert cps[a..b] == rcps[a - 1..b - 1];
        DecodeJoinedRun(rest, a - 1, b - 1);
      } else {
        var x := Join(rcps[..b - 1]);
        assert cps[a..b] == [s[..w]] + rcps[..b - 1];
        assert Join(cps[a..b]) == s[..w] + x by {
          assert ([s[..w]] + rcps[..b - 1])[1..] == rcps[..b - 1];
        }
        DecodeJoinedRun(rest, 0, b - 1);
        assert rcps[0..b - 1] == rcps[..b - 1];
        assert CodePoints(x) == rcps[..b - 1];
        var joined := s[..w] + x;
        if w == 2 {
          assert StartsWithPair(joined);
          assert joined[..2] == s[..2] && joined[2..] == x;
        } else {
          JoinedPrefixIsPrefix(rest, b - 1);
          assert x != [] ==> x[0] == s[1];
          assert !StartsWithPair(joined);
          assert joined[..1] == s[..1] && joined[1..] == x;
        }
      }
    }
  }

  /** What `uslice` returns, in code points: the items `[from, to)` of
      `[...s]` with both bounds clamped to `ulength(s)`, or nothing when
      `from >= to`. The slice is made of whole code points of `s`, never
      of half a surrogate pair. */
  lemma USliceCodePoints(s: String16, start: nat, end: Option<nat>)
    ensures CodePoints(USlice(s, start, end)) ==
      (if SliceFrom(s, start) < SliceTo(s, end)
       then CodePoints(s)[SliceFrom(s, start)..SliceTo(s, end)] else [])
    ensures ULength(USlice(s, start, end)) ==
      Max(0, SliceTo(s, end) - SliceFrom(s, start))
  {
    if SliceFrom(s, start) < SliceTo(s, end) {
      DecodeJoinedRun(s, SliceFrom(s, start), SliceTo(s, end));
    }
  }

  /** `uslice(s, 0)` is `s`. */
  lemma USliceWhole(s: String16)
    ensures USlice(s, 0, None) == s
  {
    var cps := CodePoints(s);
    CodePointsSpec(s);
    assert cps[0..|cps|] == cps;
  }

  /** Adjacent slices join: `uslice(s, a, b) + uslice(s, b, c) == uslice(s, a, c)`. */
  lemma USliceSplit(s: String16, a: nat, b: nat, c: nat)
    requires a <= b <= c
    ensures USlice(s, a, Some(b)) + USlice(s, b, Some(c)) == USlice(s, a, Some(c))
  {
    var cps := CodePoints(s);
    var n := |cps|;
    var x, y, z := Min(a, n), Min(b, n), Min(c, n);
    if x < y && y < z {
      assert cps[x..z] == cps[x..y] + cps[y..z];
      JoinAppend(cps[x..y], cps[y..z]);
    }
  }
}
