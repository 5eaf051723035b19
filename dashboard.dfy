/** components/Dashboard.tsx: the ordering of the action items, the
    rendering of issue descriptions without markdown links, and the
    fallbacks for empty reasoning. */
module Dashboard {
  import opened Types
  import opened StableSort

  // ---------------------------------------------------------------------
  // Action items, highest priority first
  // ---------------------------------------------------------------------

  /** `priorityMap`: High 3, Medium 2, Low 1. */
  function PriorityWeight(p: Priority): int
  {
    match p
    case High => 3
    case Medium => 2
    case Low => 1
  }

  /** The comparator `priorityMap[b.priority] - priorityMap[a.priority]`
      sorts ascending by the negated weight. */
  function PriorityKey(item: ActionItem): real
  {
    -(PriorityWeight(item.priority) as real)
  }

  /** `geminiResult.actionItems.sort(...)`: a stable sort of the array in
      place, done here as an insertion sort. */
  method SortActionItems(items: array<ActionItem>)
    modifies items
    ensures items[..] == SortBy(old(items[..]), PriorityKey)
  {
    var i := 0;
    while i < items.Length
      invariant 0 <= i <= items.Length
      invariant items[..i] == SortBy(old(items[..])[..i], PriorityKey)
      invariant items[i..] == old(items[..])[i..]
    {
      ghost var input := old(items[..]);
      InsertNext(items, i);
      assert input[..i + 1][..i] == input[..i];
      assert input[..i + 1][i] == input[i];
      i := i + 1;
    }
    assert items[..] == items[..items.Length];
    assert old(items[..]) == old(items[..])[..items.Length];
  }

  /** One pass of the insertion sort: moves `items[i]` left past every
      element of the sorted prefix with a larger key. */
  method InsertNext(items: array<ActionItem>, i: nat)
    requires i < items.Length
    modifies items
    ensures items[..i + 1] == InsertLast(old(items[..i]), old(items[i]), PriorityKey)
    ensures items[i + 1..] == old(items[i + 1..])
  {
    ghost var done := items[..i];
    ghost var rest := items[i + 1..];
    var x := items[i];
    var j := i;
    assert done[..j] == done && done[j..] == [];
    while j > 0 && PriorityKey(items[j - 1]) > PriorityKey(x)
      invariant 0 <= j <= i
      invariant Shifted(items[..], done, j, rest)
      invariant InsertLast(done, x, PriorityKey) == InsertLast(done[..j], x, PriorityKey) + done[j..]
    {
      ghost var a := items[..];
      items[j] := items[j - 1];
      assert items[..] == a[j := a[j - 1]];
      ShiftStep(a, done, j, rest);
      j := j - 1;
      InsertLastShift(done, j, x);
    }
    ghost var a := items[..];
    items[j] := x;
    assert items[..] == a[j := x];
    Placed(a, done, x, j, rest);
    assert InsertLast(done[..j], x, PriorityKey) == done[..j] + [x];
  }

  /** The array during a pass: `done[..j]` in place, a hole at `j`,
      `done[j..]` shifted one to the right, then the untouched `tail`. */
  ghost predicate Shifted(a: seq<ActionItem>, done: seq<ActionItem>, j: nat, tail: seq<ActionItem>)
  {
    && j <= |done| && |a| == |done| + 1 + |tail|
    && (forall k :: 0 <= k < j ==> a[k] == done[k])
    && (forall k :: j < k <= |done| ==> a[k] == done[k - 1])
    && (forall k :: |done| < k < |a| ==> a[k] == tail[k - |done| - 1])
  }

  /** Copying the element left of the hole into it moves the hole left. */
  lemma ShiftStep(a: seq<ActionItem>, done: seq<ActionItem>, j: nat, tail: seq<ActionItem>)
    requires Shifted(a, done, j, tail) && 0 < j
    ensures a[j - 1] == done[j - 1]
    ensures Shifted(a[j := a[j - 1]], done, j - 1, tail)
  {
  }

  /** Filling the hole with `x` gives the inserted prefix and the tail. */
  lemma Placed(a: seq<ActionItem>, done: seq<ActionItem>, x: ActionItem, j: nat, tail: seq<ActionItem>)
    requires Shifted(a, done, j, tail)
    ensures a[j := x][..|done| + 1] == done[..j] + [x] + done[j..]
    ensures a[j := x][|done| + 1..] == tail
  {
  }

  /** One step of the shifting loop: moving past an element with a larger key. */
  lemma InsertLastShift(done: seq<ActionItem>, j: nat, x: ActionItem)
    requires j < |done|
    requires PriorityKey(done[j]) > PriorityKey(x)
    ensures InsertLast(done[..j + 1], x, PriorityKey) + done[j + 1..]
         == InsertLast(done[..j], x, PriorityKey) + done[j..]
  {
    var p := done[..j + 1];
    assert p[..|p| - 1] == done[..j] && p[|p| - 1] == done[j];
    assert done[j..] == [done[j]] + done[j + 1..];
  }

  /** After the sort every High item precedes every Medium item, which
      precedes every Low item; the items, and so their count, are those of
      the input. */
  lemma PriorityOrder(items: seq<ActionItem>)
    ensures var r := SortBy(items, PriorityKey);
            && multiset(r) == multiset(items) && |r| == |items|
            && forall i, j :: 0 <= i < j < |r| ==> PriorityWeight(r[i].priority) >= PriorityWeight(r[j].priority)
  {
    SortByCorrect(items, PriorityKey);
  }

  /** Items of one priority keep their relative order. */
  lemma PriorityTiesKeepOrder(items: seq<ActionItem>, p: Priority)
    ensures WithKey(SortBy(items, PriorityKey), PriorityKey, -(PriorityWeight(p) as real))
         == WithKey(items, PriorityKey, -(PriorityWeight(p) as real))
  {
    SortByStable(items, PriorityKey, -(PriorityWeight(p) as real));
  }

  /** Items of priorities Low, High, Medium come out as High, Medium, Low. */
  lemma ExampleMixedPriorities(a: ActionItem, b: ActionItem, c: ActionItem)
    requires a.priority == Low && b.priority == High && c.priority == Medium
    ensures SortBy([a, b, c], PriorityKey) == [b, c, a]
  {
    assert PriorityKey(a) == -1.0 && PriorityKey(b) == -3.0 && PriorityKey(c) == -2.0;
    assert [a, b, c][..2] == [a, b] && [a, b][..1] == [a] && [a][..0] == [];
    assert SortBy([a], PriorityKey) == [a];
    assert InsertLast([], b, PriorityKey) == [b];
    assert InsertLast([a], b, PriorityKey) == [b, a];
    assert SortBy([a, b], PriorityKey) == [b, a];
    assert [b, a][..1] == [b];
    assert InsertLast([b], c, PriorityKey) == [b, c];
    assert InsertLast([b, a], c, PriorityKey) == [b, c, a];
  }

  // ---------------------------------------------------------------------
  // Markdown links: description.replace(/\[(.*?)\]\(.*?\)/g, '$1')
  // ---------------------------------------------------------------------

  /** The characters that `.` does not match. */
  predicate IsLineTerminator(c: char)
  {
    c == '\n' || c == '\r' || c == '\U{2028}' || c == '\U{2029}'
  }

  /** No line terminator in s[a..b]. */
  ghost predicate SameLine(s: string, a: int, b: int)
    requires 0 <= a && b <= |s|
  {
    forall j :: a <= j < b ==> !IsLineTerminator(s[j])
  }

  /** The "](" that ends a link's text starts at `j`. */
  predicate IsTextEnd(s: string, j: int)
  {
    0 <= j && j + 1 < |s| && s[j] == ']' && s[j + 1] == '('
  }

  /** `\[(.*?)\]\(.*?\)` matches s[i..e] with the group ending before k. */
  ghost predicate IsMatch(s: string, i: int, k: int, e: int)
  {
    && 0 <= i < k && k + 3 <= e <= |s|
    && s[i] == '['
    && SameLine(s, i + 1, k)
    && IsTextEnd(s, k)
    && SameLine(s, k + 2, e - 1)
    && s[e - 1] == ')'
  }

  /** The first "](" at or after `from` that no line terminator precedes. */
  function FindTextEnd(s: string, from: nat): (r: Option<nat>)
    requires from <= |s|
    ensures r.Some? ==> from <= r.value && IsTextEnd(s, r.value)
                        && SameLine(s, from, r.value)
    ensures r.Some? ==> forall j :: from <= j < r.value ==> !IsTextEnd(s, j)
    ensures r.None? ==> forall j :: from <= j && j + 1 < |s| && SameLine(s, from, j) ==>
                          !IsTextEnd(s, j)
    decreases |s| - from
  {
    if from + 1 >= |s| then None
    else if IsLineTerminator(s[from]) then None
    else if IsTextEnd(s, from) then Some(from)
    else FindTextEnd(s, from + 1)
  }

  /** The first ')' at or after `from` that no line terminator precedes. */
  function FindCloseParen(s: string, from: nat): (r: Option<nat>)
    requires from <= |s|
    ensures r.Some? ==> from <= r.value < |s| && s[r.value] == ')' && SameLine(s, from, r.value)
    ensures r.Some? ==> forall j :: from <= j < r.value ==> s[j] != ')'
    ensures r.None? ==> forall j :: from <= j < |s| && SameLine(s, from, j) ==> s[j] != ')'
    decreases |s| - from
  {
    if from >= |s| then None
    else if IsLineTerminator(s[from]) then None
    else if s[from] == ')' then Some(from)
    else FindCloseParen(s, from + 1)
  }

  /** The match starting at `i`, as (end of the group, end of the match). */
  function LinkAt(s: string, i: nat): (r: Option<(nat, nat)>)
    requires i < |s|
    ensures r.Some? ==> i < r.value.0 && r.value.0 + 3 <= r.value.1 <= |s|
  {
    if s[i] != '[' then None
    else
      match FindTextEnd(s, i + 1)
      case None => None
      case Some(k) =>
        match FindCloseParen(s, k + 2)
        case None => None
        case Some(c) => Some((k, c + 1))
  }

  /** LinkAt finds the match a backtracking matcher finds at `i`: the one
      with the shortest group and then the shortest target; and none when
      the pattern does not match at `i`. */
  lemma LinkAtIsLazyMatch(s: string, i: nat)
    requires i < |s|
    ensures LinkAt(s, i).Some? ==>
              var (k, e) := LinkAt(s, i).value;
              && IsMatch(s, i, k, e)
              && forall k', e' :: IsMatch(s, i, k', e') ==> k < k' || (k == k' && e <= e')
    ensures LinkAt(s, i).None? ==> forall k, e :: !IsMatch(s, i, k, e)
  {
    if s[i] == '[' {
      match FindTextEnd(s, i + 1)
      case None =>
      case Some(k) =>
        forall k', e' | IsMatch(s, i, k', e') ensures k <= k' {
        }
        match FindCloseParen(s, k + 2)
        case None =>
          forall k', e' | IsMatch(s, i, k', e') ensures false {
          }
        case Some(c) =>
          forall k', e' | IsMatch(s, i, k', e') && k' == k ensures c + 1 <= e' {
          }
    }
  }

  /** `description.replace(/\[(.*?)\]\(.*?\)/g, '$1')`: each match is
      replaced by its group, every other character is kept, and the search
      resumes after the match. The pattern has no anchor and no look-behind,
      so whether it matches at a position depends only on the text from
      there on; the scan is therefore stated on the remaining suffix. */
  function StripLinks(s: string): string
    decreases |s|
  {
    if s == [] then []
    else
      var link := LinkAt(s, 0);
      if link.Some? then s[1..link.value.0] + StripLinks(s[link.value.1..])
      else [s[0]] + StripLinks(s[1..])
  }

  /** Removing links never lengthens the text, and a text without '[' is
      returned unchanged. */
  lemma {:induction false} StripLinksShortens(s: string)
    ensures |StripLinks(s)| <= |s|
    ensures '[' !in s ==> StripLinks(s) == s
    decreases |s|
  {
    if s != [] {
      var link := LinkAt(s, 0);
      if link.Some? {
        StripLinksShortens(s[link.value.1..]);
        assert s[0] == '[';
      } else {
        StripLinksShortens(s[1..]);
        if '[' !in s {
          assert '[' !in s[1..] by {
            forall c | c in s[1..] ensures c in s { }
          }
          assert s == [s[0]] + s[1..];
        }
      }
    }
  }

  /** The lazy match at the start of a well-formed link spans the link. */
  lemma LinkOfParts(text: string, target: string, rest: string)
    requires ']' !in text && ')' !in target
    requires forall c :: c in text + target ==> !IsLineTerminator(c)
    ensures var s := "[" + text + "](" + target + ")" + rest;
            LinkAt(s, 0) == Some((|text| + 1, |text| + |target| + 4))
  {
    var s := "[" + text + "](" + target + ")" + rest;
    var k := |text| + 1;
    var e := k + |target| + 3;
    assert s[0] == '[' && IsTextEnd(s, k) && s[e - 1] == ')';
    assert forall j :: 1 <= j < k ==> s[j] == text[j - 1];
    assert forall j :: k + 2 <= j < e - 1 ==> s[j] == target[j - k - 2];
    assert forall j :: 1 <= j < k ==> s[j] in text + target && s[j] != ']';
    assert forall j :: k + 2 <= j < e - 1 ==> s[j] in text + target && s[j] != ')';
    assert IsMatch(s, 0, k, e);
    LinkAtIsLazyMatch(s, 0);
  }

  /** A text that starts with a well-formed link loses the link's brackets
      and target. */
  lemma StripLeadingLink(text: string, target: string, rest: string)
    requires ']' !in text && ')' !in target
    requires forall c :: c in text + target ==> !IsLineTerminator(c)
    ensures StripLinks(("[" + text + "](" + target + ")") + rest) == text + StripLinks(rest)
  {
    var link := "[" + text + "](" + target + ")";
    var s := link + rest;
    var k := |text| + 1;
    assert s == "[" + text + "](" + target + ")" + rest;
    LinkOfParts(text, target, rest);
    assert s[1..k] == text;
    assert s[|link|..] == rest;
  }

  /** A character other than '[' cannot start a link: it is kept. */
  lemma StripLinksKeepsPlain(c: char, t: string)
    requires c != '['
    ensures StripLinks([c] + t) == [c] + StripLinks(t)
  {
    var s := [c] + t;
    assert s[1..] == t;
  }

  /** Text without '[' in front of a suffix is kept as it is, and the suffix
      is processed on its own. */
  lemma {:induction false} StripLinksPlainPrefix(before: string, t: string)
    requires '[' !in before
    ensures StripLinks(before + t) == before + StripLinks(t)
    decreases |before|
  {
    if before != [] {
      var c := before[0];
      var b' := before[1..];
      assert before == [c] + b';
      assert c in before;
      assert '[' !in b' by {
        forall d | d in b' ensures d in before { }
      }
      assert before + t == [c] + (b' + t);
      StripLinksKeepsPlain(c, b' + t);
      StripLinksPlainPrefix(b', t);
      calc {
        StripLinks(before + t);
        [c] + StripLinks(b' + t);
        [c] + (b' + StripLinks(t));
        ([c] + b') + StripLinks(t);
      }
    } else {
      assert before + t == t;
    }
  }

  /** A link whose text holds no ']' and whose target holds no ')', neither
      crossing a line, is replaced by its text; text before it without '['
      is kept and the rest is processed on its own. */
  lemma StripLinksOfLink(before: string, text: string, target: string, rest: string)
    requires '[' !in before && ']' !in text && ')' !in target
    requires forall c :: c in text + target ==> !IsLineTerminator(c)
    ensures StripLinks(before + ("[" + text + "](" + target + ")") + rest) == before + text + StripLinks(rest)
  {
    var link := "[" + text + "](" + target + ")";
    assert before + link + rest == before + (link + rest);
    StripLinksPlainPrefix(before, link + rest);
    StripLeadingLink(text, target, rest);
  }

  // ---------------------------------------------------------------------
  // Reasoning texts
  // ---------------------------------------------------------------------

  const NoReasoning := "No detailed reasoning available."

  /** `reasoning || "No detailed reasoning available."`. */
  function ReasoningText(reasoning: string): (r: string)
    ensures r != ""
    ensures reasoning != "" ==> r == reasoning
    ensures reasoning == "" ==> r == NoReasoning
  {
    if reasoning != "" then reasoning else NoReasoning
  }
}
