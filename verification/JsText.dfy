/** The string operations of the source's runtime that the models need.
    A `char` is one Unicode character; the source counts UTF-16 code units. */
module JsText {

  /** The characters matched by `\s` and removed by `trim`. */
  predicate IsSpace(c: char) {
    || c in {' ', '\t', '\n', '\r', '\U{000B}', '\U{000C}', '\U{00A0}', '\U{1680}'}
    || '\U{2000}' <= c <= '\U{200A}'
    || c in {'\U{2028}', '\U{2029}', '\U{202F}', '\U{205F}', '\U{3000}', '\U{FEFF}'}
  }

  function TrimStart(s: string): string {
    if s != [] && IsSpace(s[0]) then TrimStart(s[1..]) else s
  }

  function TrimEnd(s: string): string {
    if s != [] && IsSpace(s[|s| - 1]) then TrimEnd(s[..|s| - 1]) else s
  }

  function Trim(s: string): string {
    TrimEnd(TrimStart(s))
  }

  /** `s.slice(0, n)`. */
  function Take(s: string, n: nat): string {
    if |s| <= n then s else s[..n]
  }

  /** A string with no space at either end. */
  predicate Trimmed(s: string) {
    s != [] ==> !IsSpace(s[0]) && !IsSpace(s[|s| - 1])
  }

  lemma {:induction false} TrimEndKeepsStart(s: string)
    requires s != [] ==> !IsSpace(s[0])
    ensures Trimmed(TrimEnd(s)) && TrimEnd(s) <= s
  {
    if s != [] && IsSpace(s[|s| - 1]) { TrimEndKeepsStart(s[..|s| - 1]); }
  }

  lemma {:induction false} TrimStartDropsSpaces(s: string)
    ensures TrimStart(s) != [] ==> !IsSpace(TrimStart(s)[0])
    ensures |TrimStart(s)| <= |s|
  {
    if s != [] && IsSpace(s[0]) { TrimStartDropsSpaces(s[1..]); }
  }

  lemma TrimIsTrimmed(s: string)
    ensures Trimmed(Trim(s)) && |Trim(s)| <= |s|
    ensures Trimmed(s) ==> Trim(s) == s
    ensures Trim(Trim(s)) == Trim(s)
  {
    TrimStartDropsSpaces(s);
    TrimEndKeepsStart(TrimStart(s));
  }

  /** t is what is left of s when the spaces before i and from j on are cut off. */
  predicate CutAt(s: string, t: string, i: nat, j: nat) {
    && i <= j <= |s| && t == s[i..j] && Trimmed(t)
    && (forall k | 0 <= k < i :: IsSpace(s[k])) && (forall k | j <= k < |s| :: IsSpace(s[k]))
  }

  lemma {:induction false} TrimStartCuts(s: string) returns (i: nat)
    ensures i <= |s| && TrimStart(s) == s[i..] && forall k | 0 <= k < i :: IsSpace(s[k])
  {
    if s != [] && IsSpace(s[0]) {
      var n := TrimStartCuts(s[1..]);
      i := n + 1;
      assert s[1..][n..] == s[i..];
      assert forall k | 1 <= k < i :: s[k] == s[1..][k - 1];
    } else {
      i := 0;
    }
  }

  lemma {:induction false} TrimEndCuts(s: string)
    ensures var n := |TrimEnd(s)|; n <= |s| && TrimEnd(s) == s[..n] && forall k | n <= k < |s| :: IsSpace(s[k])
  {
    if s != [] && IsSpace(s[|s| - 1]) {
      TrimEndCuts(s[..|s| - 1]);
      assert forall k | 0 <= k < |s| - 1 :: s[..|s| - 1][k] == s[k];
    }
  }

  /** Trimming cuts off exactly the spaces at both ends. */
  lemma TrimCutsSpaces(s: string) returns (i: nat, j: nat)
    ensures CutAt(s, Trim(s), i, j)
  {
    i := TrimStartCuts(s);
    TrimEndCuts(TrimStart(s));
    j := i + |Trim(s)|;
    TrimIsTrimmed(s);
    assert s[i..][..|Trim(s)|] == s[i..j];
    forall k | j <= k < |s| ensures IsSpace(s[k]) { assert TrimStart(s)[k - i] == s[k]; }
  }

  lemma TakeIsPrefix(s: string, n: nat)
    ensures Take(s, n) <= s && |Take(s, n)| == if |s| <= n then |s| else n
  {
  }
}
