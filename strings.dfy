/** The few operations on Python `str` values the pipeline relies on. */
module Strings {

  /** `s.endswith(suffix)`. */
  predicate EndsWith(s: string, suffix: string) {
    |suffix| <= |s| && s[|s| - |suffix|..] == suffix
  }

  /** `[n for n in names if n.endswith(suffix)]`, in the order of `names`. */
  function WithSuffix(names: seq<string>, suffix: string): (r: seq<string>)
    ensures forall i :: 0 <= i < |r| ==> EndsWith(r[i], suffix) && r[i] in names
    ensures forall n :: n in names && EndsWith(n, suffix) ==> n in r
  {
    if names == [] then []
    else
      var rest := WithSuffix(names[..|names| - 1], suffix);
      var n := names[|names| - 1];
      assert names == names[..|names| - 1] + [n];
      if EndsWith(n, suffix) then rest + [n] else rest
  }

  /** The positions of the names that end in `suffix`, in increasing order. */
  function SuffixPositions(names: seq<string>, suffix: string): (p: seq<nat>)
    ensures forall t :: 0 <= t < |p| ==> p[t] < |names| && EndsWith(names[p[t]], suffix)
    ensures forall t, u :: 0 <= t < u < |p| ==> p[t] < p[u]
    ensures forall i :: 0 <= i < |names| && EndsWith(names[i], suffix) ==> i in p
  {
    if names == [] then []
    else
      var rest := SuffixPositions(names[..|names| - 1], suffix);
      if EndsWith(names[|names| - 1], suffix) then rest + [|names| - 1] else rest
  }

  /** The filter keeps the matching names in their order, each occurrence
      once: its t-th element is the name at the t-th matching position. */
  lemma {:induction false} WithSuffixInOrder(names: seq<string>, suffix: string)
    ensures |WithSuffix(names, suffix)| == |SuffixPositions(names, suffix)|
    ensures forall t :: 0 <= t < |WithSuffix(names, suffix)| ==>
              WithSuffix(names, suffix)[t] == names[SuffixPositions(names, suffix)[t]]
  {
    if names != [] {
      var init := names[..|names| - 1];
      var last := |names| - 1;
      WithSuffixInOrder(init, suffix);
      var w0, p0 := WithSuffix(init, suffix), SuffixPositions(init, suffix);
      var w, p := WithSuffix(names, suffix), SuffixPositions(names, suffix);
      if EndsWith(names[last], suffix) {
        assert w == w0 + [names[last]] && p == p0 + [last];
      } else {
        assert w == w0 && p == p0;
      }
      forall t | 0 <= t < |w| ensures w[t] == names[p[t]] {
        if t < |w0| {
          assert w[t] == w0[t] == init[p0[t]] && p[t] == p0[t];
        }
      }
    }
  }

  /** `s.replace(pat, rep)`: every non-overlapping occurrence, left to right. */
  function ReplaceAll(s: string, pat: string, rep: string): string
    requires pat != []
    decreases |s|
  {
    if |s| < |pat| then s
    else if s[..|pat|] == pat then rep + ReplaceAll(s[|pat|..], pat, rep)
    else [s[0]] + ReplaceAll(s[1..], pat, rep)
  }

  /** Replacing in a string that does not contain the first character of the
      pattern changes nothing. */
  lemma {:induction false} ReplaceAbsent(s: string, pat: string, rep: string)
    requires pat != []
    requires forall i :: 0 <= i < |s| ==> s[i] != pat[0]
    ensures ReplaceAll(s, pat, rep) == s
    decreases |s|
  {
    if |pat| <= |s| {
      assert s[..|pat|][0] == s[0];
      ReplaceAbsent(s[1..], pat, rep);
    }
  }

  /** Replacing in `s + pat`, where `s` lacks the pattern's first character,
      leaves `s + rep`. */
  lemma {:induction false} ReplaceTrailing(s: string, pat: string, rep: string)
    requires pat != []
    requires forall i :: 0 <= i < |s| ==> s[i] != pat[0]
    ensures ReplaceAll(s + pat, pat, rep) == s + rep
    decreases |s|
  {
    var t := s + pat;
    if s == [] {
      assert t == pat;
      assert t[..|pat|] == pat && t[|pat|..] == [];
      assert ReplaceAll(t, pat, rep) == rep + ReplaceAll([], pat, rep);
    } else {
      assert t[0] == s[0] && s[0] != pat[0];
      assert t[..|pat|] != pat by {
        assert t[..|pat|][0] == t[0];
      }
      assert ReplaceAll(t, pat, rep) == [t[0]] + ReplaceAll(t[1..], pat, rep);
      assert t[1..] == s[1..] + pat;
      ReplaceTrailing(s[1..], pat, rep);
      assert s == [s[0]] + s[1..];
    }
  }

  /** Python's ordering of strings: by code point, a proper prefix first. */
  predicate Less(a: string, b: string)
    decreases |a|
  {
    if a == [] then b != []
    else if b == [] then false
    else a[0] < b[0] || (a[0] == b[0] && Less(a[1..], b[1..]))
  }

  lemma {:induction false} LessIrreflexive(a: string)
    ensures !Less(a, a)
    decreases |a|
  {
    if a != [] {
      LessIrreflexive(a[1..]);
    }
  }

  lemma {:induction false} LessTransitive(a: string, b: string, c: string)
    requires Less(a, b) && Less(b, c)
    ensures Less(a, c)
    decreases |a|
  {
    if a != [] && a[0] == b[0] && b[0] == c[0] {
      LessTransitive(a[1..], b[1..], c[1..]);
    }
  }

  lemma {:induction false} LessAsymmetric(a: string, b: string)
    ensures Less(a, b) ==> !Less(b, a)
    decreases |a|
  {
    if a != [] && b != [] && a[0] == b[0] {
      LessAsymmetric(a[1..], b[1..]);
    }
  }

  lemma {:induction false} LessTotal(a: string, b: string)
    ensures a == b || Less(a, b) || Less(b, a)
    decreases |a|
  {
    if a != [] && b != [] && a[0] == b[0] {
      LessTotal(a[1..], b[1..]);
      if a[1..] == b[1..] {
        assert a == [a[0]] + a[1..] && b == [b[0]] + b[1..];
      }
    }
  }
}
