/** Toggling the n-th checklist item of a Markdown text (toggle-checkbox.ts): split into lines
    and line breaks, skip code fences, rewrite one line in place, join. */
module Checklist {
  import opened Options
  import opened JsText

  // -------------------------------------------------------------- splitting text

  predicate IsBreakChar(c: char) { c == '\r' || c == '\n' }

  predicate IsBreak(part: string) { part == "\r\n" || part == "\n" || part == "\r" }

  predicate NoBreaks(line: string) {
    forall i | 0 <= i < |line| :: !IsBreakChar(line[i])
  }

  /** Where the first line ends. */
  function LineEnd(s: string): (k: nat)
    ensures k <= |s| && NoBreaks(s[..k]) && (k < |s| ==> IsBreakChar(s[k]))
  {
    if s == [] || IsBreakChar(s[0]) then 0
    else
      var k := 1 + LineEnd(s[1..]);
      assert forall i | 1 <= i < k :: s[..k][i] == s[1..][..k - 1][i - 1];
      k
  }

  /** The line break that the pattern matches here; a carriage return takes a following line feed. */
  function BreakAt(s: string): (b: string)
    requires s != [] && IsBreakChar(s[0])
    ensures IsBreak(b) && b <= s
  {
    if s[0] == '\r' && |s| > 1 && s[1] == '\n' then
      assert s[..2] == "\r\n";
      "\r\n"
    else [s[0]]
  }

  /** `split(/(\r\n|\n|\r)/)`: lines at even places, breaks at odd ones. */
  function Split(s: string): (parts: seq<string>)
    ensures |parts| >= 1
    decreases |s|
  {
    var k := LineEnd(s);
    if k == |s| then [s]
    else
      var b := BreakAt(s[k..]);
      [s[..k], b] + Split(s[k + |b|..])
  }

  /** `join("")`. */
  function Join(parts: seq<string>): string {
    if parts == [] then "" else parts[0] + Join(parts[1..])
  }

  lemma JoinTwo(line: string, b: string, rest: seq<string>)
    ensures Join([line, b] + rest) == line + b + Join(rest)
  {
    var parts := [line, b] + rest;
    assert parts[1..] == [b] + rest && parts[1..][1..] == rest;
    assert Join(parts[1..]) == b + Join(rest);
  }

  lemma {:induction false} JoinSplit(s: string)
    ensures Join(Split(s)) == s
    decreases |s|
  {
    var k := LineEnd(s);
    if k < |s| {
      var b := BreakAt(s[k..]);
      JoinSplit(s[k + |b|..]);
      JoinTwo(s[..k], b, Split(s[k + |b|..]));
      Reassemble(s, k, b);
    } else {
      assert Join([s]) == s + Join([s][1..]);
    }
  }

  lemma Reassemble(s: string, k: nat, b: string)
    requires k <= |s| && b <= s[k..]
    ensures s[..k] + b + s[k + |b|..] == s
  {
    assert s[k..][|b|..] == s[k + |b|..];
    assert s[k..] == b + s[k + |b|..];
  }

  /** A line, or a line, a break and more; a lone carriage return is not followed by a line feed. */
  predicate WellFormed(parts: seq<string>) {
    if |parts| == 0 then false
    else if |parts| == 1 then NoBreaks(parts[0])
    else
      && |parts| >= 3 && NoBreaks(parts[0]) && IsBreak(parts[1]) && WellFormed(parts[2..])
      && !(parts[1] == "\r" && parts[2] == "" && |parts| > 3 && parts[3] == "\n")
  }

  lemma {:induction false} SplitIsWellFormed(s: string)
    ensures WellFormed(Split(s))
    decreases |s|
  {
    var k := LineEnd(s);
    if k < |s| {
      var b := BreakAt(s[k..]);
      var rest := s[k + |b|..];
      SplitIsWellFormed(rest);
      assert Split(s)[2..] == Split(rest);
      if b == "\r" && Split(rest)[0] == "" && |Split(rest)| > 1 {
        assert LineEnd(rest) == 0 && rest[0] == s[k..][1];
      }
    }
  }

  lemma LineEndOf(line: string, rest: string)
    requires NoBreaks(line) && (rest != [] ==> IsBreakChar(rest[0]))
    ensures LineEnd(line + rest) == |line|
  {
    var s := line + rest;
    assert forall i | 0 <= i < |line| :: s[i] == line[i];
    assert rest != [] ==> s[|line|] == rest[0];
    LineEndIsUnique(s, |line|);
  }

  lemma LineEndIsUnique(s: string, k: nat)
    requires k <= |s| && (forall i | 0 <= i < k :: !IsBreakChar(s[i])) && (k < |s| ==> IsBreakChar(s[k]))
    ensures LineEnd(s) == k
  {
    var e := LineEnd(s);
    assert forall i | 0 <= i < e :: !IsBreakChar(s[..e][i]) && s[..e][i] == s[i];
  }

  /** Splitting undoes joining. */
  lemma {:induction false} SplitJoin(parts: seq<string>)
    requires WellFormed(parts)
    ensures Split(Join(parts)) == parts
    decreases |parts|
  {
    if |parts| == 1 {
      assert Join(parts) == parts[0] + Join(parts[1..]) && Join(parts[1..]) == "";
      LineEndOf(parts[0], "");
      assert parts[0] + "" == parts[0];
    } else {
      var line, b, rest := parts[0], parts[1], Join(parts[2..]);
      var s := Join(parts);
      assert parts[1..][1..] == parts[2..];
      assert parts[1..][0] == b && Join(parts[1..]) == b + rest;
      LineEndOf(line, b + rest);
      assert s[|line|..] == b + rest;
      BreakIsWhole(parts);
      assert s[|line| + |b|..] == rest;
      assert s[..|line|] == line;
      SplitJoin(parts[2..]);
      assert [line, b] + parts[2..] == parts;
    }
  }

  lemma BreakIsWhole(parts: seq<string>)
    requires WellFormed(parts) && |parts| >= 3
    ensures BreakAt(parts[1] + Join(parts[2..])) == parts[1]
  {
    var b, rest := parts[1], Join(parts[2..]);
    assert parts[2..][0] == parts[2];
    assert rest == parts[2] + Join(parts[2..][1..]);
    if b == "\r" && parts[2] == "" && |parts| > 3 {
      assert parts[2..][1..][0] == parts[3];
      assert rest == Join(parts[2..][1..]) == parts[3] + Join(parts[2..][1..][1..]);
      assert IsBreak(parts[2..][1]);
      assert rest[0] == parts[3][0] == '\r';
    } else if b == "\r" && parts[2] != "" {
      assert rest[0] == parts[2][0];
    }
    if b == "\r\n" { assert (b + rest)[0] == '\r' && (b + rest)[1] == '\n'; }
    if b == "\r" && rest != "" { assert (b + rest)[1] == rest[0]; }
    if b == "\n" { assert (b + rest)[0] == '\n'; }
  }

  predicate ChangedAt(before: string, after: string, q: nat, c: char) {
    q < |before| && after == before[q := c]
  }

  /** The same text, with one character replaced by c. */
  ghost predicate OneChange(before: string, after: string, c: char) {
    exists q :: ChangedAt(before, after, q, c)
  }

  /** Changing one character of one part changes that character of the joined text. */
  lemma {:induction false} JoinUpdate(parts: seq<string>, t: nat, p: nat, c: char)
    requires t < |parts| && p < |parts[t]|
    ensures OneChange(Join(parts), Join(parts[t := parts[t][p := c]]), c)
  {
    var changed := parts[t := parts[t][p := c]];
    if t == 0 {
      assert changed[1..] == parts[1..];
      assert ChangedAt(Join(parts), Join(changed), p, c);
    } else {
      JoinUpdate(parts[1..], t - 1, p, c);
      assert changed[1..] == parts[1..][t - 1 := parts[1..][t - 1][p := c]];
      var q :| ChangedAt(Join(parts[1..]), Join(changed[1..]), q, c);
      assert ChangedAt(Join(parts), Join(changed), |parts[0]| + q, c);
    }
  }

  // ------------------------------------------------------------------- one line

  datatype Fence = Fence(marker: char, length: nat)

  datatype Kind = BreakPart | FenceLine(fence: Fence) | TaskLine(mark: nat) | PlainLine

  /** The first place from i on without a space. */
  function SkipSpaces(line: string, i: nat): (j: nat)
    requires i <= |line|
    ensures i <= j <= |line| && (j < |line| ==> !IsSpace(line[j]))
    ensures forall k | i <= k < j :: IsSpace(line[k])
    decreases |line| - i
  {
    if i < |line| && IsSpace(line[i]) then SkipSpaces(line, i + 1) else i
  }

  function RunLength(line: string, i: nat, c: char): nat
    requires i <= |line|
    decreases |line| - i
  {
    if i < |line| && line[i] == c then 1 + RunLength(line, i + 1, c) else 0
  }

  /** Spaces, then three or more backticks or tildes. */
  function FenceMatch(line: string): Option<Fence> {
    var i := SkipSpaces(line, 0);
    if RunLength(line, i, '`') >= 3 then Some(Fence('`', RunLength(line, i, '`')))
    else if RunLength(line, i, '~') >= 3 then Some(Fence('~', RunLength(line, i, '~')))
    else None
  }

  predicate IsBullet(c: char) { c == '-' || c == '+' || c == '*' }

  predicate IsMark(c: char) { c == ' ' || c == 'x' || c == 'X' }

  /** Spaces, a bullet, spaces, a bracketed mark; the result is the place of the mark. */
  function TaskMatch(line: string): Option<nat> {
    var i := SkipSpaces(line, 0);
    if !(i < |line| && IsBullet(line[i])) then None
    else
      var j := SkipSpaces(line, i + 1);
      if j > i + 1 && j + 2 < |line| && line[j] == '[' && IsMark(line[j + 1]) && line[j + 2] == ']' then Some(j + 1) else None
  }

  predicate Spaces(line: string, i: nat, j: nat)
    requires j <= |line|
  {
    forall k | i <= k < j :: IsSpace(line[k])
  }

  /** `/^(\s*[-+*]\s+\[)([ xX])(\])/`, with the bullet and the mark at these places. */
  predicate TaskAt(line: string, bullet: nat, mark: nat) {
    && bullet + 2 < mark < |line| - 1
    && Spaces(line, 0, bullet) && (line[bullet] == '-' || line[bullet] == '+' || line[bullet] == '*')
    && Spaces(line, bullet + 1, mark - 1)
    && line[mark - 1] == '[' && (line[mark] == ' ' || line[mark] == 'x' || line[mark] == 'X') && line[mark + 1] == ']'
  }

  /** `/^\s*(`{3,}|~{3,})/`, with the longest run of its marker, which begins here. */
  predicate FenceAt(line: string, i: nat, fence: Fence) {
    && i + fence.length <= |line|
    && fence.length >= 3 && (fence.marker == '`' || fence.marker == '~')
    && Spaces(line, 0, i)
    && (forall k | i <= k < i + fence.length :: line[k] == fence.marker)
    && (i + fence.length < |line| ==> line[i + fence.length] != fence.marker)
  }

  lemma TaskMatchMeans(line: string, mark: nat)
    ensures TaskMatch(line) == Some(mark) <==> exists bullet: nat :: TaskAt(line, bullet, mark)
  {
    var i := SkipSpaces(line, 0);
    if TaskMatch(line) == Some(mark) {
      TaskFound(line, mark);
    }
    if bullet: nat :| TaskAt(line, bullet, mark) {
      assert !IsSpace('-') && !IsSpace('+') && !IsSpace('*') && !IsSpace('[');
      hide IsSpace;
      SkipIsUnique(line, 0, bullet);
      SkipIsUnique(line, bullet + 1, mark - 1);
    }
  }

  lemma TaskFound(line: string, mark: nat)
    requires TaskMatch(line) == Some(mark)
    ensures TaskAt(line, SkipSpaces(line, 0), mark)
  {
    hide IsSpace;
  }

  lemma {:induction false} RunIsUnique(line: string, i: nat, c: char, n: nat)
    requires i <= |line|
    ensures RunLength(line, i, c) == n <==>
            && i + n <= |line| && (forall k | i <= k < i + n :: line[k] == c) && (i + n < |line| ==> line[i + n] != c)
    decreases |line| - i
  {
    if i < |line| && line[i] == c && n > 0 { RunIsUnique(line, i + 1, c, n - 1); }
  }

  lemma FenceMatchMeans(line: string, fence: Fence)
    ensures FenceMatch(line) == Some(fence) <==> exists i: nat :: FenceAt(line, i, fence)
  {
    if FenceMatch(line) == Some(fence) { FenceFound(line, fence); }
    if i: nat :| FenceAt(line, i, fence) { FenceIsFound(line, i, fence); }
  }

  lemma FenceFound(line: string, fence: Fence)
    requires FenceMatch(line) == Some(fence)
    ensures FenceAt(line, SkipSpaces(line, 0), fence)
  {
    hide IsSpace, RunLength;
    var i := SkipSpaces(line, 0);
    RunIsUnique(line, i, fence.marker, fence.length);
  }

  lemma FenceIsFound(line: string, i: nat, fence: Fence)
    requires FenceAt(line, i, fence)
    ensures FenceMatch(line) == Some(fence)
  {
    assert !IsSpace('`') && !IsSpace('~');
    hide IsSpace, RunLength;
    assert line[i] == fence.marker;
    SkipIsUnique(line, 0, i);
    RunIsUnique(line, i, fence.marker, fence.length);
    if fence.marker == '~' { RunIsUnique(line, i, '`', 0); }
  }

  function KindOf(part: string): (kind: Kind)
    ensures kind.TaskLine? ==> kind.mark < |part| && IsMark(part[kind.mark])
  {
    if IsBreak(part) then BreakPart
    else if FenceMatch(part).Some? then FenceLine(FenceMatch(part).value)
    else if TaskMatch(part).Some? then TaskLine(TaskMatch(part).value)
    else PlainLine
  }

  function MarkChar(checked: bool): char { if checked then 'x' else ' ' }

  /** The line with its mark replaced. */
  function Marked(part: string, checked: bool): string
    requires KindOf(part).TaskLine?
  {
    part[KindOf(part).mark := MarkChar(checked)]
  }

  predicate IsChecked(part: string)
    requires KindOf(part).TaskLine?
  {
    part[KindOf(part).mark] != ' '
  }

  /** A task counts as done exactly when its brackets hold an x, small or capital, and else hold a space. */
  lemma CheckedMeans(part: string, mark: nat)
    requires KindOf(part) == TaskLine(mark)
    ensures IsChecked(part) <==> part[mark] == 'x' || part[mark] == 'X'
    ensures !IsChecked(part) <==> part[mark] == ' '
  {
  }

  lemma SkipIsUnique(line: string, i: nat, j: nat)
    requires i <= j <= |line| && (forall k | i <= k < j :: IsSpace(line[k])) && (j < |line| ==> !IsSpace(line[j]))
    ensures SkipSpaces(line, i) == j
  {
    var k := SkipSpaces(line, i);
    assert k < |line| ==> !IsSpace(line[k]);
    assert forall n | i <= n < k :: IsSpace(line[n]);
  }

  /** Replacing the mark leaves the line a task line with its mark at the same place. */
  lemma MarkedKeepsKind(part: string, checked: bool)
    requires KindOf(part).TaskLine?
    ensures KindOf(Marked(part, checked)) == KindOf(part)
    ensures IsChecked(Marked(part, checked)) == checked
    ensures NoBreaks(part) ==> NoBreaks(Marked(part, checked))
  {
    var line := Marked(part, checked);
    var i := SkipSpaces(part, 0);
    var j := SkipSpaces(part, i + 1);
    assert KindOf(part).mark == j + 1;
    SkipIsUnique(line, 0, i);
    assert line[j] == '[';
    SkipIsUnique(line, i + 1, j);
    assert line[i] == part[i];
    assert |line| >= 3;
  }

  // --------------------------------------------------------------- the whole text

  function NextFence(open: Option<Fence>, kind: Kind): Option<Fence> {
    if !kind.FenceLine? then open
    else if open.None? then Some(kind.fence)
    else if open.value.marker == kind.fence.marker && kind.fence.length >= open.value.length then None
    else open
  }

  /** The open code fence after the first k parts. */
  function FenceAfter(parts: seq<string>, k: nat): Option<Fence>
    requires k <= |parts|
  {
    if k == 0 then None else NextFence(FenceAfter(parts, k - 1), KindOf(parts[k - 1]))
  }

  predicate IsItem(parts: seq<string>, k: nat)
    requires k < |parts|
  {
    KindOf(parts[k]).TaskLine? && FenceAfter(parts, k).None?
  }

  /** The checklist items among the first k parts, by their place. */
  function Items(parts: seq<string>, k: nat): (items: seq<nat>)
    requires k <= |parts|
    ensures forall i | 0 <= i < |items| :: items[i] < k && IsItem(parts, items[i])
    ensures forall i, j | 0 <= i < j < |items| :: items[i] < items[j]
  {
    if k == 0 then [] else Items(parts, k - 1) + if IsItem(parts, k - 1) then [k - 1] else []
  }

  function AllItems(parts: seq<string>): seq<nat> { Items(parts, |parts|) }

  /** The states of all checklist items, in order. */
  function States(content: string): seq<bool> {
    var parts := Split(content);
    var items := AllItems(parts);
    seq(|items|, i requires 0 <= i < |items| => IsChecked(parts[items[i]]))
  }

  function Toggle(content: string, i: int, checked: bool): Option<string> {
    var parts := Split(content);
    var items := AllItems(parts);
    if 0 <= i < |items| then Some(Join(parts[items[i] := Marked(parts[items[i]], checked)])) else None
  }

  /** The loop of `toggleMarkdownTaskItem`, overwriting the array of parts. */
  method ToggleMarkdownTaskItem(content: string, checkboxIndex: int, checked: bool) returns (result: Option<string>)
    ensures result == Toggle(content, checkboxIndex, checked)
  {
    ghost var source := Split(content);
    var split := Split(content);
    var parts := new string[|split|](i requires 0 <= i < |split| => split[i]);
    assert parts[..] == source;
    var fence: Option<Fence> := None;
    var currentIndex := 0;
    for index := 0 to parts.Length
      invariant parts[..] == source
      invariant fence == FenceAfter(source, index)
      invariant currentIndex == |Items(source, index)|
      invariant 0 <= checkboxIndex ==> currentIndex <= checkboxIndex
    {
      var line := parts[index];
      assert line == source[index];
      if IsBreak(line) { continue; }
      var fenceMatch := FenceMatch(line);
      if fenceMatch.Some? {
        if fence.None? { fence := fenceMatch; }
        else if fence.value.marker == fenceMatch.value.marker && fenceMatch.value.length >= fence.value.length { fence := None; }
        continue;
      }
      if fence.Some? { continue; }
      var task := TaskMatch(line);
      if task.None? { continue; }
      if currentIndex == checkboxIndex {
        parts[index] := line[..task.value] + [MarkChar(checked)] + line[task.value + 1..];
        ItemFound(source, index);
        assert parts[index] == Marked(source[index], checked);
        assert parts[..] == source[index := Marked(source[index], checked)];
        var joined := JoinAll(parts);
        return Some(joined);
      }
      currentIndex := currentIndex + 1;
    }
    return None;
  }

  method JoinAll(parts: array<string>) returns (text: string)
    ensures text == Join(parts[..])
  {
    text := "";
    for i := 0 to parts.Length
      invariant text + Join(parts[i..]) == Join(parts[..])
    {
      assert parts[i..][1..] == parts[i + 1..];
      assert text + (parts[i] + Join(parts[i + 1..])) == text + parts[i] + Join(parts[i + 1..]);
      text := text + parts[i];
    }
  }

  lemma {:induction false} ItemsGrow(parts: seq<string>, k: nat, n: nat)
    requires k <= n <= |parts|
    ensures Items(parts, k) <= Items(parts, n)
  {
    if k < n { ItemsGrow(parts, k, n - 1); }
  }

  lemma ItemFound(parts: seq<string>, index: nat)
    requires index < |parts| && IsItem(parts, index)
    ensures |Items(parts, index)| < |AllItems(parts)| && AllItems(parts)[|Items(parts, index)|] == index
  {
    ItemsGrow(parts, index + 1, |parts|);
    assert Items(parts, index + 1)[|Items(parts, index)|] == index;
  }

  // ------------------------------------------------------------------ main results

  predicate SameKinds(a: seq<string>, b: seq<string>) {
    |a| == |b| && forall k | 0 <= k < |a| :: KindOf(a[k]) == KindOf(b[k])
  }

  /** Fences and items depend on the kinds of the parts only. */
  lemma {:induction false} SameItems(a: seq<string>, b: seq<string>, k: nat)
    requires SameKinds(a, b) && k <= |a|
    ensures FenceAfter(a, k) == FenceAfter(b, k) && Items(a, k) == Items(b, k)
  {
    if k > 0 { SameItems(a, b, k - 1); }
  }

  lemma {:induction false} WellFormedUpdate(parts: seq<string>, t: nat, line: string)
    requires WellFormed(parts) && t < |parts| && !IsBreak(parts[t])
    requires NoBreaks(parts[t]) ==> NoBreaks(line)
    requires line != "" && parts[t] != ""
    ensures NoBreaks(parts[t]) && WellFormed(parts[t := line])
    decreases |parts|
  {
    if t >= 2 {
      WellFormedUpdate(parts[2..], t - 2, line);
      assert parts[t := line][2..] == parts[2..][t - 2 := line];
    } else if |parts| >= 3 {
      assert parts[t := line][2..] == parts[2..];
    }
  }

  /** Splitting a toggled text gives back the rewritten parts, with the same items. */
  lemma ToggledParts(content: string, i: int, checked: bool)
    requires 0 <= i < |AllItems(Split(content))|
    ensures var parts := Split(content); var t := AllItems(parts)[i]; var changed := parts[t := Marked(parts[t], checked)];
            Split(Toggle(content, i, checked).value) == changed && AllItems(changed) == AllItems(parts)
  {
    var parts := Split(content);
    var t := AllItems(parts)[i];
    MarkedKeepsKind(parts[t], checked);
    SplitIsWellFormed(content);
    WellFormedUpdate(parts, t, Marked(parts[t], checked));
    SplitJoin(parts[t := Marked(parts[t], checked)]);
    SameItems(parts, parts[t := Marked(parts[t], checked)], |parts|);
  }

  /** Toggling item i sets state i and no other; there is no result exactly when there is no item i. */
  lemma ToggleSetsState(content: string, i: int, checked: bool)
    ensures Toggle(content, i, checked).Some? <==> 0 <= i < |States(content)|
    ensures 0 <= i < |States(content)| ==> States(Toggle(content, i, checked).value) == States(content)[i := checked]
  {
    if 0 <= i < |States(content)| {
      var parts := Split(content);
      var items := AllItems(parts);
      ToggledParts(content, i, checked);
      MarkedKeepsKind(parts[items[i]], checked);
      var after := States(Toggle(content, i, checked).value);
      forall k | 0 <= k < |items| ensures after[k] == States(content)[i := checked][k] {
        if k != i { assert items[k] != items[i]; }
      }
      assert after == States(content)[i := checked];
    }
  }

  /** At most one character changes, into an x or a space. */
  lemma ToggleChangesOneCharacter(content: string, i: int, checked: bool)
    requires 0 <= i < |States(content)|
    ensures OneChange(content, Toggle(content, i, checked).value, if checked then 'x' else ' ')
  {
    var parts := Split(content);
    var t := AllItems(parts)[i];
    JoinSplit(content);
    JoinUpdate(parts, t, KindOf(parts[t]).mark, MarkChar(checked));
    assert Toggle(content, i, checked).value == Join(parts[t := parts[t][KindOf(parts[t]).mark := MarkChar(checked)]]);
  }

  /** A second toggle of the same item overrides the first. */
  lemma SecondToggleWins(content: string, i: int, first: bool, second: bool)
    requires 0 <= i < |States(content)|
    ensures Toggle(Toggle(content, i, first).value, i, second) == Toggle(content, i, second)
  {
    var parts := Split(content);
    var t := AllItems(parts)[i];
    ToggledParts(content, i, first);
    MarkedTwice(parts, t, first, second);
  }

  lemma MarkedTwice(parts: seq<string>, t: nat, first: bool, second: bool)
    requires t < |parts| && KindOf(parts[t]).TaskLine?
    ensures KindOf(Marked(parts[t], first)).TaskLine?
    ensures var changed := parts[t := Marked(parts[t], first)];
            changed[t := Marked(changed[t], second)] == parts[t := Marked(parts[t], second)]
  {
    hide KindOf;
    MarkedKeepsKind(parts[t], first);
    var p := KindOf(parts[t]).mark;
    assert parts[t][p := MarkChar(first)][p := MarkChar(second)] == parts[t][p := MarkChar(second)];
  }
}
