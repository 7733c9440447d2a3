/**
 Cutting strings at a separator, left to right and without overlaps, as `strings.Split` does.
 */
module Text {
  import opened Outcomes

  /** `strings.Index`: where `sep` first occurs in `s`. */
  function Index(s: string, sep: string): (r: Option<nat>)
    ensures r.Some? ==> r.value + |sep| <= |s| && s[r.value..r.value + |sep|] == sep
  {
    if |s| < |sep| then None
    else if s[..|sep|] == sep then Some(0)
    else if s == "" then None
    else
      match Index(s[1..], sep)
      case None => None
      case Some(i) => Some(i + 1)
  }

  /** `strings.Split` for a separator that is not empty. */
  function Split(s: string, sep: string): (tokens: seq<string>)
    requires sep != ""
    ensures |tokens| >= 1
  {
    match Index(s, sep)
    case None => [s]
    case Some(i) => [s[..i]] + Split(s[i + |sep|..], sep)
  }

  /** Whether the first cut in `t + sep` comes right after `t`. */
  predicate CutsAfter(t: string, sep: string) {
    Index(t + sep, sep) == Some(|t|)
  }

  /** The first occurrence of `sep` is at most where it is known to occur. */
  lemma {:induction false} IndexAtMost(s: string, sep: string, i: nat)
    requires i + |sep| <= |s| && s[i..i + |sep|] == sep
    ensures Index(s, sep).Some? && Index(s, sep).value <= i
  {
    if i > 0 && s[..|sep|] != sep {
      assert s[1..][i - 1..i - 1 + |sep|] == s[i..i + |sep|];
      IndexAtMost(s[1..], sep, i - 1);
    }
  }

  predicate OccursAt(s: string, sep: string, i: nat) {
    i + |sep| <= |s| && s[i..i + |sep|] == sep
  }

  ghost predicate Contains(s: string, sep: string) {
    exists i: nat :: OccursAt(s, sep, i)
  }

  lemma IndexIsContains(s: string, sep: string)
    ensures Index(s, sep).Some? <==> Contains(s, sep)
  {
    if Contains(s, sep) {
      var i: nat :| OccursAt(s, sep, i);
      IndexAtMost(s, sep, i);
    }
    if Index(s, sep).Some? {
      assert OccursAt(s, sep, Index(s, sep).value);
    }
  }

  lemma HeadOfConcat(x: string, r: string, end: nat)
    requires end <= |x|
    ensures (x + r)[..end] == x[..end]
  {
  }

  lemma TailOfConcat(x: string, r: string, cut: nat)
    requires cut <= |x|
    ensures (x + r)[cut..] == x[cut..] + r
  {
  }

  /** A first occurrence inside a prefix does not depend on what follows. */
  lemma {:induction false} IndexInPrefix(a: string, b: string, sep: string)
    requires Index(a, sep).Some?
    ensures Index(a + b, sep) == Index(a, sep)
  {
    HeadOfConcat(a, b, |sep|);
    if a[..|sep|] != sep {
      IndexInPrefix(a[1..], b, sep);
      TailOfConcat(a, b, 1);
    }
  }

  /** The first token of `t + sep + rest` is `t` exactly when no cut comes before. */
  lemma FirstToken(t: string, sep: string, rest: string)
    requires sep != ""
    ensures var tokens := Split(t + sep + rest, sep);
            && |tokens| >= 2
            && (tokens[0] == t <==> CutsAfter(t, sep))
            && (CutsAfter(t, sep) ==> tokens == [t] + Split(rest, sep))
  {
    var s := t + sep + rest;
    IndexAtMost(t + sep, sep, |t|);
    IndexInPrefix(t + sep, rest, sep);
    var i := Index(s, sep).value;
    assert s[..i] == t[..i];
    if i == |t| {
      assert s[..i] == t && s[i + |sep|..] == rest;
    }
  }

  lemma SplitCuts(s: string, sep: string, at: nat)
    requires sep != ""
    requires at + |sep| <= |s| && s[at..at + |sep|] == sep
    ensures Index(s, sep).Some?
    ensures var cut := Index(s, sep).value + |sep|;
            |sep| <= cut <= at + |sep| && |Split(s, sep)| == 1 + |Split(s[cut..], sep)|
  {
    IndexAtMost(s, sep, at);
  }

  lemma SliceOfConcat(x: string, r: string, from: nat, to: nat)
    requires from <= to <= |r|
    ensures (x + r)[|x| + from..|x| + to] == r[from..to]
  {
  }

  lemma TailInTwo(x: string, r: string, cut: nat, end: nat)
    requires |x| <= cut <= |x| + end && end <= |r|
    ensures (x + r)[cut..] == r[cut - |x|..end] + r[end..]
  {
  }

  lemma CutInTail(x: string, r: string, sep: string)
    requires sep != "" && Index(r, sep).Some?
    ensures Index(x + r, sep).Some?
    ensures var cut := Index(x + r, sep).value + |sep|;
            && 0 < cut <= |x| + Index(r, sep).value + |sep|
            && |Split(x + r, sep)| == 1 + |Split((x + r)[cut..], sep)|
  {
    var k := Index(r, sep).value;
    SliceOfConcat(x, r, k, k + |sep|);
    SplitCuts(x + r, sep, |x| + k);
  }

  /** More text in front never makes fewer tokens. */
  lemma {:induction false} MoreTextMoreTokens(x: string, r: string, sep: string)
    requires sep != ""
    ensures |Split(x + r, sep)| >= |Split(r, sep)|
    decreases |x| + |r|, 1
  {
    if Index(r, sep).Some? {
      CutInTail(x, r, sep);
      MoreTokensAfter(x, r, sep, Index(x + r, sep).value + |sep|, Index(r, sep).value + |sep|);
    }
  }

  /** The same for what is left after a cut that lies before `end` of `r`, where `r` itself is cut. */
  lemma {:induction false} MoreTokensAfter(x: string, r: string, sep: string, cut: nat, end: nat)
    requires sep != "" && 0 < cut <= |x| + end && end <= |r|
    requires Index(r, sep) == Some(end - |sep|)
    ensures 1 + |Split((x + r)[cut..], sep)| >= |Split(r, sep)|
    decreases |x| + |r|, 0
  {
    if cut <= |x| {
      TailOfConcat(x, r, cut);
      MoreTextMoreTokens(x[cut..], r, sep);
    } else {
      TailInTwo(x, r, cut, end);
      MoreTextMoreTokens(r[cut - |x|..end], r[end..], sep);
      FirstCutCounts(r, sep, end);
    }
  }

  lemma FirstCutCounts(r: string, sep: string, end: nat)
    requires sep != "" && end <= |r|
    requires Index(r, sep) == Some(end - |sep|)
    ensures |Split(r, sep)| == 1 + |Split(r[end..], sep)|
  {
  }

  lemma {:induction false} CutInsideAddsToken(x: string, rest: string, sep: string, at: nat)
    requires sep != "" && at + |sep| <= |x|
    requires (x + rest)[at..at + |sep|] == sep
    ensures |Split(x + rest, sep)| >= 1 + |Split(rest, sep)|
  {
    SplitCuts(x + rest, sep, at);
    var cut := Index(x + rest, sep).value + |sep|;
    TailOfConcat(x, rest, cut);
    MoreTextMoreTokens(x[cut..], rest, sep);
  }

  lemma MiddleOfConcat(a: string, b: string, c: string)
    ensures ((a + b) + c)[|a|..|a| + |b|] == b
  {
  }

  /** Each separator written between two texts is worth at least one token. */
  lemma {:induction false} SeparatorAddsToken(t: string, sep: string, rest: string)
    requires sep != ""
    ensures |Split(t + sep + rest, sep)| >= 1 + |Split(rest, sep)|
  {
    MiddleOfConcat(t, sep, rest);
    CutInsideAddsToken(t + sep, rest, sep, |t|);
  }

  /** The tokens put together again, with the separator between them. */
  function Join(tokens: seq<string>, sep: string): string
    requires tokens != []
  {
    if |tokens| == 1 then tokens[0] else tokens[0] + sep + Join(tokens[1..], sep)
  }

  /** No token but the last has a separator in it, also not with what follows it in front of the next cut. */
  ghost predicate CutFirst(tokens: seq<string>, sep: string) {
    && (forall i :: 0 <= i < |tokens| ==> !Contains(tokens[i], sep))
    && (forall i :: 0 <= i < |tokens| - 1 ==> forall j: nat :: OccursAt(tokens[i] + sep, sep, j) ==> j == |tokens[i]|)
  }

  /** Cutting is undone by joining, and every cut is the first one possible. */
  lemma {:induction false} JoinOfSplit(s: string, sep: string)
    requires sep != ""
    ensures Join(Split(s, sep), sep) == s
    ensures CutFirst(Split(s, sep), sep)
  {
    match Index(s, sep)
    case None => IndexIsContains(s, sep);
    case Some(i) =>
      var t, rest := s[..i], s[i + |sep|..];
      assert s == t + sep + rest;
      JoinOfSplit(rest, sep);
      FirstIsLeftmost(t, sep, rest);
      JoinOfCons(t, Split(rest, sep), sep);
      CutFirstOfCons(t, Split(rest, sep), sep);
  }

  lemma JoinOfCons(t: string, tokens: seq<string>, sep: string)
    requires tokens != []
    ensures Join([t] + tokens, sep) == t + sep + Join(tokens, sep)
  {
    assert ([t] + tokens)[1..] == tokens;
  }

  lemma CutFirstOfCons(t: string, tokens: seq<string>, sep: string)
    requires tokens != [] && CutFirst(tokens, sep)
    requires !Contains(t, sep) && forall j: nat :: OccursAt(t + sep, sep, j) ==> j == |t|
    ensures CutFirst([t] + tokens, sep)
  {
    var all := [t] + tokens;
    assert forall i :: 0 < i < |all| ==> all[i] == tokens[i - 1];
  }

  lemma FirstIsLeftmost(t: string, sep: string, rest: string)
    requires sep != "" && Index(t + sep + rest, sep) == Some(|t|)
    ensures !Contains(t, sep)
    ensures forall j: nat :: OccursAt(t + sep, sep, j) ==> j == |t|
  {
    forall j: nat | OccursAt(t + sep, sep, j)
      ensures j == |t|
    {
      assert (t + sep + rest)[j..j + |sep|] == (t + sep)[j..j + |sep|];
      IndexAtMost(t + sep + rest, sep, j);
    }
    forall j: nat | OccursAt(t, sep, j)
      ensures false
    {
      assert (t + sep)[j..j + |sep|] == t[j..j + |sep|];
      assert OccursAt(t + sep, sep, j);
    }
  }
}
