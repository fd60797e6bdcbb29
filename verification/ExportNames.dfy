/** The names of an export archive (export.service.ts): the folder path of a page, and file names
    that differ regardless of case. */
module ExportNames {
  import opened Options
  import opened Collections

  datatype Page = Page(id: string, parentId: Option<string>, isFolder: bool, slug: string)

  type Pages = map<string, Page>

  // ------------------------------------------------------------------ folder paths

  /** The folder that a parent reference leads to, if any; an empty reference leads nowhere. */
  predicate LeadsToFolder(byId: Pages, parent: Option<string>) {
    parent.Some? && parent.value != "" && parent.value in byId && byId[parent.value].isFolder
  }

  /** The folders from a parent reference up to a root: a chain that ends where no folder follows. */
  predicate IsChain(byId: Pages, parent: Option<string>, chain: seq<string>)
    decreases |chain|
  {
    if chain == [] then !LeadsToFolder(byId, parent)
    else LeadsToFolder(byId, parent) && parent.value == chain[0] && IsChain(byId, byId[chain[0]].parentId, chain[1..])
  }

  /** The slugs from the root down. */
  function RootToParent(byId: Pages, chain: seq<string>): seq<string>
    requires forall id | id in chain :: id in byId
  {
    if chain == [] then [] else RootToParent(byId, chain[1..]) + [byId[chain[0]].slug]
  }

  /** `join("/")`. */
  function JoinPath(segments: seq<string>): string {
    if segments == [] then ""
    else if |segments| == 1 then segments[0]
    else segments[0] + "/" + JoinPath(segments[1..])
  }

  /** The folders that the loop visits, stopping before one that it has seen. */
  function Visited(byId: Pages, parent: Option<string>, seen: set<string>): (chain: seq<string>)
    ensures forall id | id in chain :: id in byId && byId[id].isFolder && id !in seen
    decreases byId.Keys - seen
  {
    if !LeadsToFolder(byId, parent) || parent.value in seen then []
    else
      assert byId.Keys - (seen + {parent.value}) < byId.Keys - seen by { assert parent.value in byId.Keys - seen; }
      [parent.value] + Visited(byId, byId[parent.value].parentId, seen + {parent.value})
  }

  /** The slugs that are still to be put in front. */
  function Slugs(byId: Pages, parent: Option<string>, seen: set<string>): seq<string> {
    RootToParent(byId, Visited(byId, parent, seen))
  }

  lemma SlugsStep(byId: Pages, parent: Option<string>, seen: set<string>)
    ensures LeadsToFolder(byId, parent) && parent.value !in seen ==>
              Slugs(byId, parent, seen) == Slugs(byId, byId[parent.value].parentId, seen + {parent.value}) + [byId[parent.value].slug]
    ensures !LeadsToFolder(byId, parent) || parent.value in seen ==> Slugs(byId, parent, seen) == []
  {
    if LeadsToFolder(byId, parent) && parent.value !in seen {
      assert Visited(byId, parent, seen)[1..] == Visited(byId, byId[parent.value].parentId, seen + {parent.value});
    }
  }

  method FolderPath(byId: Pages, page: Page) returns (path: string)
    ensures path == JoinPath(RootToParent(byId, Visited(byId, page.parentId, {})))
  {
    var segments := [];
    var visited: set<string> := {};
    var parentId := page.parentId;
    ghost var all := Slugs(byId, page.parentId, {});
    assert all == RootToParent(byId, Visited(byId, page.parentId, {}));
    hide Slugs, Visited, RootToParent, JoinPath;
    while parentId.Some? && parentId.value != "" && parentId.value !in visited
      invariant Slugs(byId, parentId, visited) + segments == all
      decreases if LeadsToFolder(byId, parentId) then 1 + |byId.Keys - visited| else 0
    {
      SlugsStep(byId, parentId, visited);
      ghost var before := visited;
      ghost var left := |byId.Keys - before|;
      visited := visited + {parentId.value};
      if parentId.value !in byId || !byId[parentId.value].isFolder {
        assert segments == all;
        return JoinPath(segments);
      }
      var parent := byId[parentId.value];
      Shrinks(byId.Keys, before, parentId.value);
      assert |byId.Keys - visited| < left;
      segments := [parent.slug] + segments;
      parentId := parent.parentId;
    }
    SlugsStep(byId, parentId, visited);
    assert segments == all;
    path := JoinPath(segments);
  }

  lemma Shrinks(all: set<string>, seen: set<string>, x: string)
    requires x in all && x !in seen
    ensures |all - (seen + {x})| < |all - seen|
  {
    assert all - seen == (all - (seen + {x})) + {x};
  }

  /** A reference has one chain at most. */
  lemma {:induction false} ChainIsUnique(byId: Pages, parent: Option<string>, a: seq<string>, b: seq<string>)
    requires IsChain(byId, parent, a) && IsChain(byId, parent, b)
    ensures a == b
    decreases |a|
  {
    if a != [] { ChainIsUnique(byId, byId[a[0]].parentId, a[1..], b[1..]); }
  }

  lemma {:induction false} ChainTail(byId: Pages, parent: Option<string>, chain: seq<string>, i: nat)
    requires IsChain(byId, parent, chain) && i < |chain|
    ensures chain[i] in byId && IsChain(byId, byId[chain[i]].parentId, chain[i + 1..])
    decreases |chain|
  {
    if i > 0 {
      ChainTail(byId, byId[chain[0]].parentId, chain[1..], i - 1);
      assert chain[1..][i..] == chain[i + 1..];
    }
  }

  /** A chain that ends does not visit a folder twice. */
  lemma ChainHasNoRepeats(byId: Pages, parent: Option<string>, chain: seq<string>, i: nat, j: nat)
    requires IsChain(byId, parent, chain) && i < j < |chain|
    ensures chain[i] != chain[j]
  {
    ChainTail(byId, parent, chain, i);
    ChainTail(byId, parent, chain, j);
    assert |chain[i + 1..]| != |chain[j + 1..]|;
    if chain[i] == chain[j] { ChainIsUnique(byId, byId[chain[i]].parentId, chain[i + 1..], chain[j + 1..]); }
  }

  lemma {:induction false} VisitedIsChain(byId: Pages, parent: Option<string>, seen: set<string>, chain: seq<string>)
    requires IsChain(byId, parent, chain) && forall id | id in chain :: id !in seen
    ensures Visited(byId, parent, seen) == chain
    decreases |chain|
  {
    if chain != [] {
      var next := seen + {chain[0]};
      forall id | id in chain[1..] ensures id !in next {
        var k :| 0 <= k < |chain[1..]| && chain[1..][k] == id;
        ChainHasNoRepeats(byId, parent, chain, 0, k + 1);
        assert chain[k + 1] in chain;
      }
      VisitedIsChain(byId, byId[chain[0]].parentId, next, chain[1..]);
    }
  }

  /** Where the folders above a page end at a root, `folderPath` is their slugs from the root down. */
  lemma FolderPathOfChain(byId: Pages, page: Page, chain: seq<string>)
    requires IsChain(byId, page.parentId, chain)
    ensures Visited(byId, page.parentId, {}) == chain
  {
    VisitedIsChain(byId, page.parentId, {}, chain);
  }

  /** The folders that lead to one another, whether or not they end. */
  predicate IsLinked(byId: Pages, parent: Option<string>, chain: seq<string>)
    decreases |chain|
  {
    chain != [] ==> LeadsToFolder(byId, parent) && parent.value == chain[0] && IsLinked(byId, byId[chain[0]].parentId, chain[1..])
  }

  /** Where the chain after all folders leads. */
  function Beyond(byId: Pages, parent: Option<string>, chain: seq<string>): Option<string>
    requires IsLinked(byId, parent, chain)
    decreases |chain|
  {
    if chain == [] then parent else Beyond(byId, byId[chain[0]].parentId, chain[1..])
  }

  /** On any graph, cyclic ones included, the visited folders are linked, none repeats, and they stop
      exactly where no folder follows or the next one was visited: the path is an ancestor chain
      when there is one, and goes once around the cycle otherwise. */
  lemma {:induction false} VisitedOnAnyGraph(byId: Pages, parent: Option<string>, seen: set<string>)
    ensures var chain := Visited(byId, parent, seen);
            && IsLinked(byId, parent, chain)
            && (forall i, j | 0 <= i < j < |chain| :: chain[i] != chain[j])
            && var next := Beyond(byId, parent, chain);
               !LeadsToFolder(byId, next) || next.value in seen || next.value in chain
    decreases byId.Keys - seen
  {
    if LeadsToFolder(byId, parent) && parent.value !in seen {
      assert parent.value in byId.Keys - seen;
      assert byId.Keys - (seen + {parent.value}) < byId.Keys - seen;
      var rest := Visited(byId, byId[parent.value].parentId, seen + {parent.value});
      VisitedOnAnyGraph(byId, byId[parent.value].parentId, seen + {parent.value});
      var chain := [parent.value] + rest;
      assert chain[1..] == rest && Visited(byId, parent, seen) == chain;
      forall i, j | 0 <= i < j < |chain| ensures chain[i] != chain[j] {
        assert chain[j] == rest[j - 1] && rest[j - 1] in rest;
        if i > 0 { assert chain[i] == rest[i - 1]; }
      }
    }
  }

  /** Each slug follows the path of the folder above it, after a slash. */
  lemma PathGrows(byId: Pages, parent: Option<string>, chain: seq<string>)
    requires IsLinked(byId, parent, chain) && chain != [] && forall id | id in chain :: id in byId
    ensures var path, above := JoinPath(RootToParent(byId, chain)), JoinPath(RootToParent(byId, chain[1..]));
            && parent == Some(chain[0])
            && path == if |chain| == 1 then byId[chain[0]].slug else above + "/" + byId[chain[0]].slug
  {
    AllSlugs(byId, chain[1..]);
    JoinLast(RootToParent(byId, chain[1..]), byId[chain[0]].slug);
  }

  lemma {:induction false} AllSlugs(byId: Pages, chain: seq<string>)
    requires forall id | id in chain :: id in byId
    ensures |RootToParent(byId, chain)| == |chain|
  {
    if chain != [] { AllSlugs(byId, chain[1..]); }
  }

  lemma {:induction false} JoinLast(front: seq<string>, last: string)
    ensures JoinPath(front + [last]) == if front == [] then last else JoinPath(front) + "/" + last
  {
    if |front| > 0 {
      JoinLast(front[1..], last);
      assert (front + [last])[1..] == front[1..] + [last];
    }
  }

  // ------------------------------------------------------------------ unique names

  function Digit(d: nat): char
    requires d < 10
  {
    '0' + d as char
  }

  function Decimal(n: nat): string {
    if n < 10 then [Digit(n)] else Decimal(n / 10) + [Digit(n % 10)]
  }

  function LastDot(s: string): (i: int)
    ensures -1 <= i < |s|
  {
    if s == "" then -1 else if s[|s| - 1] == '.' then |s| - 1 else LastDot(s[..|s| - 1])
  }

  function BaseOf(value: string): string { if LastDot(value) > 0 then value[..LastDot(value)] else value }

  function ExtensionOf(value: string): string { if LastDot(value) > 0 then value[LastDot(value)..] else "" }

  function Numbered(value: string, index: nat): string {
    BaseOf(value) + "-" + Decimal(index) + ExtensionOf(value)
  }

  /** The number that a decimal text stands for. */
  function ValueOf(digits: string): int {
    if digits == "" then 0 else 10 * ValueOf(digits[..|digits| - 1]) + (digits[|digits| - 1] as int - '0' as int)
  }

  lemma {:induction false} DecimalMeans(n: nat)
    ensures ValueOf(Decimal(n)) == n && Decimal(n) != "" && (n > 0 ==> Decimal(n)[0] != '0')
    ensures forall k | 0 <= k < |Decimal(n)| :: '0' <= Decimal(n)[k] <= '9'
  {
    if n >= 10 {
      DecimalMeans(n / 10);
      assert Decimal(n)[..|Decimal(n)| - 1] == Decimal(n / 10);
    } else {
      assert [Digit(n)][..0] == "";
    }
  }

  lemma {:induction false} LastDotMeans(s: string)
    ensures LastDot(s) >= 0 ==> s[LastDot(s)] == '.'
    ensures forall k | LastDot(s) < k < |s| :: s[k] != '.'
  {
    if s != "" && s[|s| - 1] != '.' { LastDotMeans(s[..|s| - 1]); }
  }

  /** The value with a hyphen and the number in decimal before its last dot, or at its end if there is
      no dot after the first character. */
  predicate IsVariant(value: string, index: nat, variant: string, base: string, number: string, extension: string) {
    && variant == base + "-" + number + extension && value == base + extension
    && ValueOf(number) == index && number != "" && (index > 0 ==> number[0] != '0')
    && (if extension == "" then forall k | 1 <= k < |value| :: value[k] != '.'
        else base != "" && extension[0] == '.' && forall k | 1 <= k < |extension| :: extension[k] != '.')
  }

  lemma NumberedMeans(value: string, index: nat)
    ensures exists base, number, extension :: IsVariant(value, index, Numbered(value, index), base, number, extension)
  {
    LastDotMeans(value);
    DecimalMeans(index);
    var base, number, extension := BaseOf(value), Decimal(index), ExtensionOf(value);
    assert base + extension == value;
    assert IsVariant(value, index, Numbered(value, index), base, number, extension);
  }

  /** Lower-casing never confuses two numbered variants of a name. */
  ghost predicate KeepsNumbers(lower: string -> string) {
    forall value, i: nat, j: nat | i != j :: lower(Numbered(value, i)) != lower(Numbered(value, j))
  }

  /** The set that one export hands to `uniqueName` for all files of a directory. */
  class UsedNames {
    var used: set<string>

    constructor ()
      ensures used == {}
    {
      used := {};
    }

    method UniqueName(lower: string -> string, value: string) returns (result: string)
      requires KeepsNumbers(lower)
      modifies this
      ensures lower(result) !in old(used) && used == old(used) + {lower(result)}
      ensures lower(value) !in old(used) ==> result == value
      ensures lower(value) in old(used) ==>
                exists n: nat :: 2 <= n <= |old(used)| + 2 && result == Numbered(value, n)
                                 && forall k: nat | 2 <= k < n :: lower(Numbered(value, k)) in old(used)
    {
      if lower(value) !in used {
        used := used + {lower(value)};
        return value;
      }
      var index := 2;
      Bounded(lower, value, used, 2);
      while lower(Numbered(value, index)) in used
        invariant 2 <= index <= |used| + 2 && used == old(used)
        invariant forall k: nat | 2 <= k < index :: lower(Numbered(value, k)) in used
        decreases |used| + 2 - index
      {
        Bounded(lower, value, used, index + 1);
        index := index + 1;
      }
      result := Numbered(value, index);
      used := used + {lower(result)};
    }

    /** All names handed out against one set are pairwise different ignoring case. */
    method UniqueNames(lower: string -> string, values: seq<string>) returns (names: seq<string>)
      requires KeepsNumbers(lower)
      modifies this
      ensures |names| == |values|
      ensures forall i, j | 0 <= i < j < |names| :: lower(names[i]) != lower(names[j])
      ensures forall i | 0 <= i < |names| :: lower(names[i]) !in old(used) && lower(names[i]) in used
    {
      names := [];
      for n := 0 to |values|
        invariant |names| == n && old(used) <= used
        invariant forall i, j | 0 <= i < j < n :: lower(names[i]) != lower(names[j])
        invariant forall i | 0 <= i < n :: lower(names[i]) !in old(used) && lower(names[i]) in used
      {
        var name := UniqueName(lower, values[n]);
        names := names + [name];
      }
    }
  }

  /** The keys of the numbered variants 2 to n - 1. */
  function Keys(lower: string -> string, value: string, n: nat): set<string> {
    if n <= 2 then {} else Keys(lower, value, n - 1) + {lower(Numbered(value, n - 1))}
  }

  lemma {:induction false} KeysMembers(lower: string -> string, value: string, n: nat)
    ensures forall x :: x in Keys(lower, value, n) <==> exists k: nat :: 2 <= k < n && x == lower(Numbered(value, k))
  {
    if n > 2 {
      KeysMembers(lower, value, n - 1);
      forall x ensures x in Keys(lower, value, n) <==> exists k: nat :: 2 <= k < n && x == lower(Numbered(value, k)) {
        if x == lower(Numbered(value, n - 1)) { assert 2 <= n - 1 < n; }
      }
    }
  }

  lemma {:induction false} KeysCount(lower: string -> string, value: string, n: nat)
    requires KeepsNumbers(lower) && n >= 2
    ensures |Keys(lower, value, n)| == n - 2
  {
    if n > 2 {
      KeysCount(lower, value, n - 1);
      KeysMembers(lower, value, n - 1);
    }
  }

  /** If all variants below n are taken, there are that many names. */
  lemma Bounded(lower: string -> string, value: string, used: set<string>, n: nat)
    requires KeepsNumbers(lower) && n >= 2
    requires forall k: nat | 2 <= k < n :: lower(Numbered(value, k)) in used
    ensures n <= |used| + 2
  {
    KeysMembers(lower, value, n);
    KeysCount(lower, value, n);
    SubsetSize(Keys(lower, value, n), used);
  }

  // --------------------------------------------- lower-casing character by character

  /** Each character on its own, to one character or to several. */
  function Charwise(f: char -> string, s: string): string {
    if s == "" then "" else f(s[0]) + Charwise(f, s[1..])
  }

  lemma {:induction false} CharwiseConcat(f: char -> string, a: string, b: string)
    ensures Charwise(f, a + b) == Charwise(f, a) + Charwise(f, b)
  {
    if a == "" {
      assert a + b == b;
    } else {
      assert (a + b)[1..] == a[1..] + b;
      CharwiseConcat(f, a[1..], b);
    }
  }

  lemma {:induction false} CharwiseDigits(f: char -> string, s: string)
    requires forall c | '0' <= c <= '9' :: f(c) == [c]
    requires forall k | 0 <= k < |s| :: '0' <= s[k] <= '9'
    ensures Charwise(f, s) == s
  {
    if s != "" { CharwiseDigits(f, s[1..]); }
  }

  lemma {:induction false} DecimalIsInjective(i: nat, j: nat)
    requires Decimal(i) == Decimal(j)
    ensures i == j
  {
    assert i >= 10 ==> |Decimal(i)| >= 2;
    assert j >= 10 ==> |Decimal(j)| >= 2;
    if i >= 10 && j >= 10 {
      var a, b := Decimal(i), Decimal(j);
      assert a[..|a| - 1] == Decimal(i / 10) && b[..|b| - 1] == Decimal(j / 10);
      assert a[|a| - 1] == Digit(i % 10) && b[|b| - 1] == Digit(j % 10);
      DecimalIsInjective(i / 10, j / 10);
    }
  }

  /** Any lower-casing of character after character that leaves digits alone, also one that maps a
      character to two, keeps the numbers apart. */
  lemma CharwiseKeepsNumbers(f: char -> string)
    requires forall c | '0' <= c <= '9' :: f(c) == [c]
    ensures KeepsNumbers(s => Charwise(f, s))
  {
    forall value, i: nat, j: nat | i != j ensures Charwise(f, Numbered(value, i)) != Charwise(f, Numbered(value, j)) {
      if Charwise(f, Numbered(value, i)) == Charwise(f, Numbered(value, j)) { SameNumber(f, value, i, j); }
    }
  }

  lemma CharwiseNumbered(f: char -> string, value: string, n: nat)
    requires forall c | '0' <= c <= '9' :: f(c) == [c]
    ensures Charwise(f, Numbered(value, n)) == Charwise(f, BaseOf(value) + "-") + Decimal(n) + Charwise(f, ExtensionOf(value))
  {
    DecimalMeans(n);
    CharwiseDigits(f, Decimal(n));
    CharwiseConcat(f, BaseOf(value) + "-", Decimal(n));
    CharwiseConcat(f, BaseOf(value) + "-" + Decimal(n), ExtensionOf(value));
  }

  lemma SameNumber(f: char -> string, value: string, i: nat, j: nat)
    requires forall c | '0' <= c <= '9' :: f(c) == [c]
    requires Charwise(f, Numbered(value, i)) == Charwise(f, Numbered(value, j))
    ensures i == j
  {
    CharwiseNumbered(f, value, i);
    CharwiseNumbered(f, value, j);
    Middle(Charwise(f, BaseOf(value) + "-"), Decimal(i), Decimal(j), Charwise(f, ExtensionOf(value)));
    DecimalIsInjective(i, j);
  }

  lemma Middle(front: string, a: string, b: string, back: string)
    requires front + a + back == front + b + back
    ensures a == b
  {
    assert |a| == |b|;
    assert (front + a + back)[|front|..|front| + |a|] == a;
    assert (front + b + back)[|front|..|front| + |b|] == b;
  }
}
