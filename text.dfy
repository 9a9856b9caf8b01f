/** String primitives of JavaScript the core relies on: `indexOf`,
    `includes`, and the collapsing of runs of one character. */
module Text {
  import opened Outcomes

  /** `sub` occurs in `s` starting at position `j`. */
  predicate OccursAt(s: string, sub: string, j: int) {
    0 <= j && j + |sub| <= |s| && s[j..j + |sub|] == sub
  }

  lemma OccursShift(s: string, sub: string, j: int)
    requires s != [] && 0 <= j
    ensures OccursAt(s, sub, j + 1) <==> OccursAt(s[1..], sub, j)
  {
    if 0 <= j && j + 1 + |sub| <= |s| {
      assert s[j + 1..j + 1 + |sub|] == s[1..][j..j + |sub|];
    }
  }

  /** `s.indexOf(sub)`: the first position at which `sub` occurs. */
  function IndexOf(s: string, sub: string): (r: Option<nat>)
    ensures r.Some? ==> OccursAt(s, sub, r.value)
    ensures r.Some? ==> forall j :: 0 <= j < r.value ==> !OccursAt(s, sub, j)
    ensures r.None? ==> forall j :: !OccursAt(s, sub, j)
    decreases |s|
  {
    if |s| < |sub| then None
    else if s[..|sub|] == sub then Some(0)
    else
      var rest := IndexOf(s[1..], sub);
      assert forall j :: 0 <= j ==> (OccursAt(s, sub, j + 1) <==> OccursAt(s[1..], sub, j)) by {
        forall j | 0 <= j ensures OccursAt(s, sub, j + 1) <==> OccursAt(s[1..], sub, j) {
          OccursShift(s, sub, j);
        }
      }
      assert !OccursAt(s, sub, 0);
      match rest
      case None =>
        assert forall j :: !OccursAt(s, sub, j) by {
          forall j ensures !OccursAt(s, sub, j) {
            if j > 0 { assert !OccursAt(s[1..], sub, j - 1); }
          }
        }
        None
      case Some(i) =>
        assert forall j :: 0 <= j < i + 1 ==> !OccursAt(s, sub, j) by {
          forall j | 0 <= j < i + 1 ensures !OccursAt(s, sub, j) {
            if j > 0 { assert !OccursAt(s[1..], sub, j - 1); }
          }
        }
        Some(i + 1)
  }

  /** `s.includes(sub)`: `sub` occurs somewhere in `s`. */
  function Contains(s: string, sub: string): (r: bool)
    ensures r <==> exists j :: OccursAt(s, sub, j)
  {
    IndexOf(s, sub).Some?
  }

  lemma ContainsAt(s: string, sub: string, j: int)
    requires OccursAt(s, sub, j)
    ensures Contains(s, sub)
  {
  }

  /** `s.replace(pat, rep)` with a string pattern: only the first
      occurrence is replaced. */
  function ReplaceFirst(s: string, pat: string, rep: string): (r: string)
    ensures IndexOf(s, pat).None? ==> r == s
    ensures IndexOf(s, pat).Some? ==>
      var i := IndexOf(s, pat).value;
      r == s[..i] + rep + s[i + |pat|..] && |r| == |s| - |pat| + |rep|
  {
    match IndexOf(s, pat)
    case None => s
    case Some(i) => s[..i] + rep + s[i + |pat|..]
  }

  /** The characters of `s` other than `c`, in order. */
  function Without(s: string, c: char): string {
    if s == [] then [] else (if s[0] == c then [] else [s[0]]) + Without(s[1..], c)
  }

  /** No two adjacent characters of `s` are both `c`. */
  predicate NoPair(s: string, c: char) {
    forall i :: 0 <= i < |s| - 1 ==> !(s[i] == c && s[i + 1] == c)
  }

  /** Every run of two or more `c` replaced by a single `c`; every other
      character kept in place. */
  function CollapseRuns(s: string, c: char): (r: string)
    ensures |r| <= |s|
    ensures NoPair(r, c)
    ensures s != [] ==> r != [] && r[0] == s[0] && r[|r| - 1] == s[|s| - 1]
  {
    if |s| < 2 then s
    else if s[0] == c && s[1] == c then CollapseRuns(s[1..], c)
    else [s[0]] + CollapseRuns(s[1..], c)
  }

  /** Collapsing removes only copies of `c`: every other character survives,
      in order. */
  lemma {:induction false} CollapseKeepsOtherChars(s: string, c: char)
    ensures Without(CollapseRuns(s, c), c) == Without(s, c)
  {
    if |s| >= 2 {
      CollapseKeepsOtherChars(s[1..], c);
      if !(s[0] == c && s[1] == c) {
        assert ([s[0]] + CollapseRuns(s[1..], c))[1..] == CollapseRuns(s[1..], c);
      }
    }
  }

  /** A string without a pair of `c` is already collapsed. */
  lemma {:induction false} CollapseNoPair(s: string, c: char)
    requires NoPair(s, c)
    ensures CollapseRuns(s, c) == s
  {
    if |s| >= 2 {
      assert !(s[0] == c && s[1] == c);
      CollapseNoPair(s[1..], c);
    }
  }

  /** Removing one `c` of a pair does not change the collapsed string. */
  lemma {:induction false} CollapseDropsOneOfPair(p: string, q: string, c: char)
    ensures CollapseRuns(p + [c, c] + q, c) == CollapseRuns(p + [c] + q, c)
  {
    if p == [] {
      assert p + [c, c] + q == [c, c] + q;
      assert ([c, c] + q)[1..] == [c] + q;
      assert p + [c] + q == [c] + q;
    } else {
      var p' := p[1..];
      assert (p + [c, c] + q)[1..] == p' + [c, c] + q;
      assert (p + [c] + q)[1..] == p' + [c] + q;
      if p' == [] {
        assert p + [c, c] + q == [p[0], c, c] + q;
        assert p + [c] + q == [p[0], c] + q;
        CollapseDropsOneOfPair([], q, c);
      } else {
        CollapseDropsOneOfPair(p', q, c);
      }
    }
  }
}
