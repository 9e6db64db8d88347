/**
The managed block in the user's patch file (apps/shell/src/main/mcp-home.ts, renderManagedPatch and
mergeManagedPatch). The block pattern is modelled by search: the first begin marker, the first end
marker after it, and one line ending.
*/
module ManagedPatch {
  import opened Common

  const BEGIN := "# BEGIN FREECODE MANAGED MCP"
  const END := "# END FREECODE MANAGED MCP"

  // ---- searching ----

  predicate OccursAt(text: string, m: string, k: int) {
    0 <= k && k + |m| <= |text| && text[k..k + |m|] == m
  }

  /** The first occurrence of m at or after `from`. */
  function Find(text: string, m: string, from: nat): (r: Option<nat>)
    ensures r.Some? ==> from <= r.value && OccursAt(text, m, r.value)
    ensures r.Some? ==> forall k :: from <= k < r.value ==> !OccursAt(text, m, k)
    ensures r.None? ==> forall k :: from <= k ==> !OccursAt(text, m, k)
    decreases |text| - from
  {
    if from + |m| > |text| then None
    else if OccursAt(text, m, from) then Some(from)
    else Find(text, m, from + 1)
  }

  /** The end of the optional carriage return and line feed at j. */
  function SkipLineEnd(text: string, j: nat): nat {
    var k := if j < |text| && text[j] == '\r' then j + 1 else j;
    if k < |text| && text[k] == '\n' then k + 1 else k
  }

  /** Where the managed block begins and ends, if there is one. */
  function FindBlock(text: string): (r: Option<(nat, nat)>)
    ensures r.Some? ==> r.value.0 <= r.value.1 <= |text|
  {
    match Find(text, BEGIN, 0)
    case None => None
    case Some(i) =>
      match Find(text, END, i + |BEGIN|)
      case None => None
      case Some(j) => Some((i, SkipLineEnd(text, j + |END|)))
  }

  // ---- merging ----

  /** The replacement patterns of String.prototype.replace that apply when nothing is captured. */
  function Expand(pattern: string, before: string, matched: string, after: string): string {
    if pattern == "" then ""
    else if |pattern| >= 2 && pattern[0] == '$' && pattern[1] in "$&`'" then
      (match pattern[1]
       case '$' => "$"
       case '&' => matched
       case '`' => before
       case _ => after) + Expand(pattern[2..], before, matched, after)
    else [pattern[0]] + Expand(pattern[1..], before, matched, after)
  }

  function Normalized(generated: string): string {
    if generated != "" && generated[|generated| - 1] == '\n' then generated else generated + "\n"
  }

  function Merge(existing: string, generated: string): string {
    var n := Normalized(generated);
    match FindBlock(existing)
    case Some((i, j)) => existing[..i] + Expand(n, existing[..i], existing[i..j], existing[j..]) + existing[j..]
    case None =>
      var prefix := TrimEnd(existing);
      if prefix == "" then n else prefix + "\n\n" + n
  }

  /** What each replacement pattern stands for (the GetSubstitution table of ECMAScript), and that any other
      character stands for itself. */
  lemma PatternsExpand(rest: string, before: string, matched: string, after: string, c: char)
    ensures var more := Expand(rest, before, matched, after);
            && Expand("$$" + rest, before, matched, after) == "$" + more
            && Expand("$&" + rest, before, matched, after) == matched + more
            && Expand("$`" + rest, before, matched, after) == before + more
            && Expand("$'" + rest, before, matched, after) == after + more
            && (c != '$' ==> Expand([c] + rest, before, matched, after) == [c] + more)
  {
    assert ("$$" + rest)[2..] == rest && ("$&" + rest)[2..] == rest && ("$`" + rest)[2..] == rest && ("$'" + rest)[2..] == rest;
    assert ([c] + rest)[1..] == rest;
  }

  /** One line ending goes with the block, whichever it is, and no more. */
  lemma OneLineEnd(text: string, i: nat)
    requires i <= |text|
    ensures var j := SkipLineEnd(text, i);
            j == if "\r\n" <= text[i..] then i + 2 else if "\r" <= text[i..] || "\n" <= text[i..] then i + 1 else i
  {
  }

  /** What is written ends in a line feed, its own or the one added. */
  lemma NormalizedEnds(generated: string)
    ensures var n := Normalized(generated);
            && n != "" && n[|n| - 1] == '\n' && (n == generated || n == generated + "\n")
            && (generated != "" && generated[|generated| - 1] == '\n' ==> n == generated)
  {
  }

  // ---- blocks ----

  /** A generated block: one begin marker at its start, one end marker at its end, a final newline. */
  ghost predicate IsBlock(n: string) {
    && |n| > |BEGIN| + |END|
    && (forall k :: OccursAt(n, BEGIN, k) <==> k == 0)
    && (forall k :: OccursAt(n, END, k) <==> k == |n| - |END| - 1)
    && n[|n| - 1] == '\n'
  }

  /** No replacement pattern in it. */
  predicate Literal(n: string) {
    forall k :: 0 <= k < |n| - 1 && n[k] == '$' ==> n[k + 1] !in "$&`'"
  }

  lemma {:induction false} LiteralExpandsToItself(n: string, before: string, matched: string, after: string)
    requires Literal(n)
    ensures Expand(n, before, matched, after) == n
  {
    if n != "" {
      forall k | 0 <= k < |n[1..]| - 1 && n[1..][k] == '$'
        ensures n[1..][k + 1] !in "$&`'"
      {
        assert n[k + 1] == '$';
      }
      LiteralExpandsToItself(n[1..], before, matched, after);
      assert n == [n[0]] + n[1..];
    }
  }

  lemma MarkersDiffer()
    ensures forall k :: 0 < k < |BEGIN| ==> BEGIN[k] != '#'
    ensures forall k :: 0 < k < |END| ==> END[k] != '#'
    ensures BEGIN[0] == '#' && END[0] == '#' && '\n' !in BEGIN && '\n' !in END
  {
  }

  /** An occurrence that ends before position n sees only the text up to n. */
  lemma OccurrenceIsLocal(s: string, t: string, m: string, k: int, n: nat)
    requires n <= |s| && n <= |t| && s[..n] == t[..n] && 0 <= k && k + |m| <= n
    ensures OccursAt(s, m, k) <==> OccursAt(t, m, k)
  {
    assert s[k..k + |m|] == s[..n][k..k + |m|];
    assert t[k..k + |m|] == t[..n][k..k + |m|];
  }

  lemma OccurrenceShifts(p: string, t: string, m: string, k: int)
    requires k >= |p|
    ensures OccursAt(p + t, m, k) <==> OccursAt(t, m, k - |p|)
  {
    if k + |m| <= |p| + |t| {
      assert (p + t)[k..k + |m|] == t[k - |p|..k - |p| + |m|];
    }
  }

  /** One differing character rules an occurrence out. */
  lemma OneCharacterDiffers(text: string, m: string, k: int, q: int)
    requires 0 <= k <= q < k + |m| && q < |text| && text[q] != m[q - k]
    ensures !OccursAt(text, m, k)
  {
    assert k + |m| <= |text| ==> text[k..k + |m|][q - k] == text[q];
  }

  /** Occurrences of a marker before `p` ends are decided by p and the marker that follows it. */
  lemma NoneBefore(p: string, rest: string, other: string, m: string, k: int)
    requires 0 <= k < |p| && m != ""
    requires OccursAt(rest, m, 0) && OccursAt(other, m, 0)
    ensures OccursAt(p + rest, m, k) <==> OccursAt(p + other, m, k)
  {
    var n := |p| + |m|;
    assert (p + rest)[..n] == p + rest[..|m|] && (p + other)[..n] == p + other[..|m|];
    assert rest[0..|m|] == rest[..|m|] && other[0..|m|] == other[..|m|];
    OccurrenceIsLocal(p + rest, p + other, m, k, n);
  }

  lemma BlockFoundAt(text: string, i: nat, e: nat)
    requires OccursAt(text, BEGIN, i) && forall k :: 0 <= k < i ==> !OccursAt(text, BEGIN, k)
    requires OccursAt(text, END, e) && i + |BEGIN| <= e && forall k :: i + |BEGIN| <= k < e ==> !OccursAt(text, END, k)
    ensures FindBlock(text) == Some((i, SkipLineEnd(text, e + |END|)))
  {
    hide OccursAt, SkipLineEnd;
    assert Find(text, BEGIN, 0) == Some(i);
    assert Find(text, END, i + |BEGIN|) == Some(e);
  }

  /** Inside a block that stands between two texts the markers are where they are in the block. */
  lemma MarkersInside(p: string, n: string, rest: string, m: string, k: int)
    requires |p| <= k && k + |m| <= |p| + |n|
    ensures OccursAt(p + n + rest, m, k) <==> OccursAt(n, m, k - |p|)
  {
    assert (p + n + rest)[k..k + |m|] == n[k - |p|..k - |p| + |m|];
  }

  lemma LineEndIsSkipped(p: string, n: string, rest: string)
    requires n != "" && n[|n| - 1] == '\n'
    ensures SkipLineEnd(p + n + rest, |p| + |n| - 1) == |p| + |n|
  {
    assert (p + n + rest)[|p| + |n| - 1] == '\n';
  }

  lemma BlockMarkers(n: string)
    requires IsBlock(n)
    ensures |n| - |END| - 1 >= |BEGIN| && n[|n| - 1] == '\n'
    ensures OccursAt(n, BEGIN, 0)
    ensures forall k :: 0 <= k < |n| ==> (OccursAt(n, END, k) <==> k == |n| - |END| - 1)
  {
    hide OccursAt;
  }

  /** A block between a text with no begin marker before it and any rest is the block that is found. */
  lemma BlockIsFound(p: string, n: string, rest: string)
    requires IsBlock(n)
    requires forall k :: 0 <= k < |p| ==> !OccursAt(p + n, BEGIN, k)
    ensures FindBlock(p + n + rest) == Some((|p|, |p| + |n|))
  {
    hide OccursAt, IsBlock, FindBlock, SkipLineEnd;
    var text, e := p + n + rest, |p| + |n| - |END| - 1;
    BlockMarkers(n);
    LineEndIsSkipped(p, n, rest);
    MarkersInside(p, n, rest, BEGIN, |p|);
    assert text[..|p| + |n|] == (p + n)[..|p| + |n|];
    forall k | 0 <= k < |p|
      ensures !OccursAt(text, BEGIN, k)
    {
      OccurrenceIsLocal(p + n, text, BEGIN, k, |p| + |n|);
    }
    forall k | |p| + |BEGIN| <= k <= e
      ensures OccursAt(text, END, k) <==> k == e
    {
      MarkersInside(p, n, rest, END, k);
    }
    BlockFoundAt(text, |p|, e);
  }

  // ---- the main results ----

  /** Text the merge may be applied to: its block, if any, starts at the first begin marker; a text
      without a block has no begin marker either. */
  ghost predicate Clean(existing: string) {
    FindBlock(existing).None? ==> forall k :: !OccursAt(existing, BEGIN, k)
  }

  /** What lies before and after the block a merge leaves. */
  function Before(existing: string): string {
    match FindBlock(existing)
    case Some((i, _)) => existing[..i]
    case None => if TrimEnd(existing) == "" then "" else TrimEnd(existing) + "\n\n"
  }

  function After(existing: string): string {
    match FindBlock(existing)
    case Some((_, j)) => existing[j..]
    case None => ""
  }

  lemma MergeIsFramed(existing: string, generated: string)
    requires Literal(Normalized(generated))
    ensures Merge(existing, generated) == Before(existing) + Normalized(generated) + After(existing)
  {
    match FindBlock(existing)
    case Some((i, j)) =>
      LiteralExpandsToItself(Normalized(generated), existing[..i], existing[i..j], existing[j..]);
    case None =>
      var n := Normalized(generated);
      assert n + "" == n && "" + n == n;
  }

  lemma {:induction false} TrimmedIsPrefix(s: string)
    ensures TrimEnd(s) <= s
  {
    if s != "" && IsSpace(s[|s| - 1]) {
      TrimmedIsPrefix(s[..|s| - 1]);
    }
  }

  lemma NoMarkerBeforeReplaced(existing: string, n: string, i: nat, j: nat)
    requires FindBlock(existing) == Some((i, j)) && IsBlock(n)
    ensures i <= |existing| && forall k :: 0 <= k < i ==> !OccursAt(existing[..i] + n, BEGIN, k)
  {
    var p, rest := existing[..i], existing[i..];
    assert existing == p + rest && OccursAt(existing, BEGIN, i);
    OccurrenceShifts(p, rest, BEGIN, i);
    BlockMarkers(n);
    hide OccursAt, IsBlock;
    forall k | 0 <= k < i
      ensures !OccursAt(p + n, BEGIN, k)
    {
      NoneBefore(p, rest, n, BEGIN, k);
    }
  }

  lemma NoMarkerBeforeInserted(existing: string, n: string)
    requires (forall k :: !OccursAt(existing, BEGIN, k)) && IsBlock(n)
    ensures var t := TrimEnd(existing);
            var p := if t == "" then "" else t + "\n\n";
            forall k :: 0 <= k < |p| ==> !OccursAt(p + n, BEGIN, k)
  {
    var t := TrimEnd(existing);
    TrimmedIsPrefix(existing);
    MarkersDiffer();
    hide TrimEnd, OccursAt, IsBlock;
    if t != "" {
      var p := t + "\n\n";
      assert (p + n)[..|t|] == t == existing[..|t|];
      forall k | 0 <= k < |p|
        ensures !OccursAt(p + n, BEGIN, k)
      {
        if k + |BEGIN| <= |t| {
          OccurrenceIsLocal(p + n, existing, BEGIN, k, |t|);
        } else {
          NoMarkerInGap(t, n, BEGIN, k);
        }
      }
    }
  }

  /** No marker starts in a gap of two line ends, or runs into it. */
  lemma NoMarkerInGap(t: string, n: string, m: string, k: int)
    requires m != "" && '\n' !in m && |t| - |m| < k < |t| + 2 && 0 <= k
    ensures !OccursAt(t + "\n\n" + n, m, k)
  {
    var q := if k < |t| then |t| else k;
    assert (t + "\n\n" + n)[q] == '\n' && m[q - k] in m;
    OneCharacterDiffers(t + "\n\n" + n, m, k, q);
  }

  /** No begin marker starts in what is kept before the block, not even one running into it. */
  lemma NoMarkerBeforeBlock(existing: string, n: string)
    requires Clean(existing) && IsBlock(n)
    ensures forall k :: 0 <= k < |Before(existing)| ==> !OccursAt(Before(existing) + n, BEGIN, k)
  {
    hide OccursAt, IsBlock, FindBlock, TrimEnd;
    if FindBlock(existing).Some? {
      var (i, j) := FindBlock(existing).value;
      NoMarkerBeforeReplaced(existing, n, i, j);
      assert Before(existing) == existing[..i];
    } else {
      NoMarkerBeforeInserted(existing, n);
      assert Before(existing) == if TrimEnd(existing) == "" then "" else TrimEnd(existing) + "\n\n";
    }
  }

  /** Merging keeps everything before and after the block as it was (on a first insertion, up to
      trailing white space), and the block it put in is the block found next time. */
  lemma MergeKeepsUserText(existing: string, generated: string)
    requires Clean(existing) && IsBlock(Normalized(generated)) && Literal(Normalized(generated))
    ensures var r := Merge(existing, generated);
            && FindBlock(r) == Some((|Before(existing)|, |Before(existing)| + |Normalized(generated)|))
            && Before(r) == Before(existing) && After(r) == After(existing)
            && r == Before(existing) + Normalized(generated) + After(existing)
            && Clean(r)
  {
    var p, n := Before(existing), Normalized(generated);
    MergeIsFramed(existing, generated);
    NoMarkerBeforeBlock(existing, n);
    BlockIsFound(p, n, After(existing));
  }

  /** Only the last merge counts: earlier generated blocks leave no trace. */
  lemma MergeIsIdempotent(existing: string, g1: string, g2: string)
    requires Clean(existing)
    requires IsBlock(Normalized(g1)) && Literal(Normalized(g1)) && Literal(Normalized(g2))
    ensures Merge(Merge(existing, g1), g2) == Merge(existing, g2)
  {
    MergeKeepsUserText(existing, g1);
    MergeIsFramed(Merge(existing, g1), g2);
    MergeIsFramed(existing, g2);
  }

  /** A begin marker inside the block or running out of it can only be the block's own. */
  lemma MarkerWithinBlock(n: string, rest: string, k: int)
    requires IsBlock(n) && 0 <= k < |n|
    ensures OccursAt(n + rest, BEGIN, k) <==> k == 0
  {
    MarkersDiffer();
    BlockIsLong(n);
    var r := n + rest;
    assert r[..|n|] == n;
    if k + |BEGIN| <= |n| {
      OccurrenceIsLocal(n, r, BEGIN, k, |n|);
    } else {
      var last := |n| - 1;
      assert r[last] == '\n' && BEGIN[last - k] in BEGIN;
      OneCharacterDiffers(r, BEGIN, k, last);
    }
  }

  lemma OneMarker(p: string, n: string, rest: string, k: int)
    requires IsBlock(n)
    requires forall i :: 0 <= i < |p| ==> !OccursAt(p + n, BEGIN, i)
    requires forall i :: !OccursAt(rest, BEGIN, i)
    ensures OccursAt(p + n + rest, BEGIN, k) <==> k == |p|
  {
    var r := p + n + rest;
    assert r == p + (n + rest) && r[..|p| + |n|] == p + n;
    BlockIsLong(n);
    if 0 <= k < |p| {
      OccurrenceIsLocal(p + n, r, BEGIN, k, |p| + |n|);
    } else if k >= |p| + |n| {
      OccurrenceShifts(p + n, rest, BEGIN, k);
    } else if k >= |p| {
      OccurrenceShifts(p, n + rest, BEGIN, k);
      MarkerWithinBlock(n, rest, k - |p|);
    }
  }

  /** A text whose rest has no begin marker ends up with exactly one. */
  lemma ExactlyOneBlock(existing: string, generated: string)
    requires Clean(existing) && IsBlock(Normalized(generated)) && Literal(Normalized(generated))
    requires forall k :: !OccursAt(After(existing), BEGIN, k)
    ensures forall k :: OccursAt(Merge(existing, generated), BEGIN, k) <==> k == |Before(existing)|
  {
    var p, n, rest := Before(existing), Normalized(generated), After(existing);
    MergeIsFramed(existing, generated);
    NoMarkerBeforeBlock(existing, n);
    forall k
      ensures OccursAt(p + n + rest, BEGIN, k) <==> k == |p|
    {
      OneMarker(p, n, rest, k);
    }
  }

  lemma BlockIsLong(n: string)
    requires IsBlock(n)
    ensures |n| >= |BEGIN|
  {
  }

  // ---- where the promises stop ----

  lemma {:induction false} TrimKeepsMarker(text: string, i: int)
    requires OccursAt(text, BEGIN, i)
    ensures i + |BEGIN| <= |TrimEnd(text)|
  {
    if text != "" && IsSpace(text[|text| - 1]) {
      LastOfMarker(text, i);
      assert text[..|text| - 1][i..i + |BEGIN|] == text[i..i + |BEGIN|];
      TrimKeepsMarker(text[..|text| - 1], i);
    }
  }

  lemma LastOfMarker(text: string, i: int)
    requires OccursAt(text, BEGIN, i)
    ensures !IsSpace(text[i + |BEGIN| - 1])
  {
    assert text[i..i + |BEGIN|][|BEGIN| - 1] == BEGIN[|BEGIN| - 1];
  }

  lemma NothingEndsIt(text: string, i: nat)
    requires FindBlock(text).None? && Find(text, BEGIN, 0) == Some(i)
    ensures OccursAt(text, BEGIN, i)
    ensures forall k :: 0 <= k < i ==> !OccursAt(text, BEGIN, k)
    ensures forall k :: i + |BEGIN| <= k ==> !OccursAt(text, END, k)
  {
    hide OccursAt;
    assert Find(text, END, i + |BEGIN|) == None;
  }

  /** Past a kept text without end markers of its own, the block's is the only one. */
  lemma EndAfterGap(text: string, t: string, n: string, k: int)
    requires t <= text && IsBlock(n) && 0 <= k < |t| + 2 + |n|
    requires k + |END| <= |t| ==> !OccursAt(text, END, k)
    ensures OccursAt(t + "\n\n" + n, END, k) <==> k == |t| + 2 + |n| - |END| - 1
  {
    MarkersDiffer();
    BlockMarkers(n);
    hide OccursAt, IsBlock;
    var p := t + "\n\n";
    if k >= |p| {
      OccurrenceShifts(p, n, END, k);
    } else if k + |END| <= |t| {
      assert (p + n)[..|t|] == t == text[..|t|];
      OccurrenceIsLocal(text, p + n, END, k, |t|);
    } else {
      NoMarkerInGap(t, n, END, k);
    }
  }

  lemma FirstMarkerStays(text: string, t: string, p: string, n: string, i: nat)
    requires t <= text && t <= p && i + |BEGIN| <= |t|
    requires OccursAt(text, BEGIN, i) && forall k :: 0 <= k < i ==> !OccursAt(text, BEGIN, k)
    ensures OccursAt(p + n, BEGIN, i) && forall k :: 0 <= k < i ==> !OccursAt(p + n, BEGIN, k)
  {
    hide OccursAt;
    assert (p + n)[..|t|] == t == text[..|t|];
    OccurrenceIsLocal(text, p + n, BEGIN, i, |t|);
    forall k | 0 <= k < i
      ensures !OccursAt(p + n, BEGIN, k)
    {
      OccurrenceIsLocal(text, p + n, BEGIN, k, |t|);
    }
  }

  lemma BlockReachesTheEnd(p: string, n: string, i: nat)
    requires n != "" && n[|n| - 1] == '\n'
    requires OccursAt(p + n, BEGIN, i) && forall k :: 0 <= k < i ==> !OccursAt(p + n, BEGIN, k)
    requires i + |BEGIN| <= |p| + |n| - |END| - 1
    requires forall k | i + |BEGIN| <= k <= |p| + |n| - |END| - 1 :: OccursAt(p + n, END, k) <==> k == |p| + |n| - |END| - 1
    ensures FindBlock(p + n) == Some((i, |p| + |n|))
  {
    hide OccursAt, FindBlock;
    var e := |p| + |n| - |END| - 1;
    assert SkipLineEnd(p + n, e + |END|) == |p| + |n|;
    BlockFoundAt(p + n, i, e);
  }

  /** The first merge appends a block to a text whose first begin marker no end marker follows; the
      next merge takes that begin marker and the appended block's end marker for one block. */
  lemma StrayMarkerReachesTheBlock(text: string, t: string, p: string, n: string, i: nat)
    requires IsBlock(n) && FindBlock(text).None? && Find(text, BEGIN, 0) == Some(i)
    requires t == TrimEnd(text) && p == t + "\n\n"
    ensures i + |BEGIN| <= |t| && FindBlock(p + n) == Some((i, |p| + |n|))
  {
    NothingEndsIt(text, i);
    TrimmedIsPrefix(text);
    TrimKeepsMarker(text, i);
    hide OccursAt, IsBlock, FindBlock, TrimEnd;
    BlockMarkers(n);
    FirstMarkerStays(text, t, p, n, i);
    forall k | i + |BEGIN| <= k <= |p| + |n| - |END| - 1
      ensures OccursAt(p + n, END, k) <==> k == |p| + |n| - |END| - 1
    {
      EndAfterGap(text, t, n, k);
    }
    BlockReachesTheEnd(p, n, i);
  }

  /** A begin marker the user left without an end marker hides the text after it: the first merge
      keeps that text, the second deletes it. */
  lemma StrayMarkerSwallowsText(text: string, generated: string)
    requires IsBlock(Normalized(generated)) && Literal(Normalized(generated)) && !Clean(text)
    ensures FindBlock(text).None? && Find(text, BEGIN, 0).Some?
    ensures var (i, t) := (Find(text, BEGIN, 0).value, TrimEnd(text));
            && i < |t|
            && Merge(text, generated) == t + "\n\n" + Normalized(generated)
            && Merge(Merge(text, generated), generated) == text[..i] + Normalized(generated)
  {
    UncleanHasMarker(text);
    hide Find, FindBlock, OccursAt, IsBlock, Literal, Normalized, TrimEnd, Merge, Clean;
    StrayMerges(text, generated, Find(text, BEGIN, 0).value, TrimEnd(text));
  }

  lemma UncleanHasMarker(text: string)
    requires !Clean(text)
    ensures FindBlock(text).None? && Find(text, BEGIN, 0).Some?
  {
    hide FindBlock;
  }

  lemma StrayMerges(text: string, generated: string, i: nat, t: string)
    requires IsBlock(Normalized(generated)) && Literal(Normalized(generated))
    requires FindBlock(text).None? && Find(text, BEGIN, 0) == Some(i) && t == TrimEnd(text)
    ensures i < |t| <= |text|
    ensures Merge(text, generated) == t + "\n\n" + Normalized(generated)
    ensures Merge(Merge(text, generated), generated) == text[..i] + Normalized(generated)
  {
    var p, n := t + "\n\n", Normalized(generated);
    hide Find, FindBlock, OccursAt, IsBlock, Literal, Normalized, TrimEnd, Merge;
    StrayMarkerReachesTheBlock(text, t, p, n, i);
    TrimmedIsPrefix(text);
    MergeAppends(text, generated);
    MergeCuts(p + n, generated, i);
    SamePrefix(text, t, "\n\n", n, i);
  }

  lemma MergeAppends(text: string, generated: string)
    requires FindBlock(text).None? && TrimEnd(text) != ""
    ensures Merge(text, generated) == TrimEnd(text) + "\n\n" + Normalized(generated)
  {
    hide FindBlock, TrimEnd, Normalized;
  }

  lemma MergeCuts(r: string, generated: string, i: nat)
    requires FindBlock(r) == Some((i, |r|)) && Literal(Normalized(generated))
    ensures Merge(r, generated) == r[..i] + Normalized(generated)
  {
    hide Literal, Normalized, Merge;
    MergeIsFramed(r, generated);
    hide FindBlock;
    assert r[|r|..] == "";
  }

  lemma SamePrefix(text: string, t: string, gap: string, n: string, i: nat)
    requires t <= text && i <= |t|
    ensures (t + gap + n)[..i] == text[..i]
  {
  }

  /** So merging twice is merging once exactly for texts without a stray begin marker. */
  lemma MergeIsIdempotentWhenClean(text: string, generated: string)
    requires IsBlock(Normalized(generated)) && Literal(Normalized(generated))
    ensures Merge(Merge(text, generated), generated) == Merge(text, generated) <==> Clean(text)
  {
    if Clean(text) {
      MergeIsIdempotent(text, generated, generated);
    } else {
      StrayMarkerSwallowsText(text, generated);
    }
  }

  // ---- rendering ----

  const PROCESS_CWD := "$process.cwd"

  datatype Server = Server(
    id: string, serverName: string, transport: string, command: string, args: seq<string>, cwd: string,
    projectActivation: Option<(string, string)>, enabled: bool)

  function HexDigit(n: int): char
    requires 0 <= n < 16
  {
    "0123456789abcdef"[n]
  }

  function EscapeChar(c: char): string {
    if c == '"' then "\\\""
    else if c == '\\' then "\\\\"
    else if c == '\U{08}' then "\\b"
    else if c == '\t' then "\\t"
    else if c == '\n' then "\\n"
    else if c == '\U{0C}' then "\\f"
    else if c == '\r' then "\\r"
    else if c < ' ' then "\\u00" + [HexDigit(c as int / 16), HexDigit(c as int % 16)]
    else [c]
  }

  function EscapeAll(s: string): string {
    if s == "" then "" else EscapeChar(s[0]) + EscapeAll(s[1..])
  }

  /** JSON.stringify of a string. */
  function Json(s: string): string {
    "\"" + EscapeAll(s) + "\""
  }

  function YamlValue(value: string): string {
    if value == PROCESS_CWD then "!!js process.cwd()" else Json(value)
  }

  function YamlList(values: seq<string>): string {
    if values == [] then "" else if |values| == 1 then YamlValue(values[0])
    else YamlValue(values[0]) + ", " + YamlList(values[1..])
  }

  function NameLine(): string {
    "  name: " + "\"@deepseek-ai/dsh-mcp-client\""
  }

  function DisabledLine(enabled: bool): string {
    "  disabled: " + (if enabled then "!!js process.env." + "FREECODE_WEB_MODE === '1'" else "true")
  }

  function EntryLines(server: Server): seq<string> {
    ["- id: " + Json("freecode-mcp-" + server.id), NameLine(), DisabledLine(server.enabled), "  config:"]
  }

  function CommandLines(server: Server): seq<string> {
    ["    transport: " + Json(server.transport),
     "    serverName: " + Json(server.serverName),
     "    command: " + Json(server.command),
     "    args: [" + YamlList(server.args) + "]",
     "    cwd: " + YamlValue(server.cwd)]
  }

  function ActivationLines(server: Server): seq<string> {
    match server.projectActivation
    case None => []
    case Some((toolName, pathArgument)) =>
      ["    projectActivation:", "      toolName: " + Json(toolName), "      pathArgument: " + Json(pathArgument)]
  }

  function ReconnectLines(): seq<string> {
    ["    failOnStartupError: false",
     "    reconnect:",
     "      enabled: true",
     "      initialDelayMs: 500",
     "      maxDelayMs: 30000",
     "      maxAttempts: 10"]
  }

  function ServerLines(server: Server): seq<string> {
    EntryLines(server) + CommandLines(server) + ActivationLines(server) + ReconnectLines()
  }

  function AllServerLines(servers: seq<Server>): seq<string> {
    if servers == [] then [] else AllServerLines(servers[..|servers| - 1]) + ServerLines(servers[|servers| - 1])
  }

  function Note1(): string {
    "# Generated by FreeCode. " + "Edit mcp/servers.json " + "to toggle entries."
  }

  function Note2(): string {
    "# The MCP client bridge " + "is bundled; external " + "server executables are " + "optional prerequisites."
  }

  /** `lines.join('\n')` and the final newline. */
  function JoinLines(lines: seq<string>): string {
    if lines == [] then "" else lines[0] + "\n" + JoinLines(lines[1..])
  }

  function Render(servers: seq<Server>): string {
    JoinLines([BEGIN, Note1(), Note2()] + AllServerLines(servers) + [END])
  }

  method RenderManagedPatch(servers: seq<Server>) returns (text: string)
    ensures text == Render(servers)
  {
    hide ServerLines, Note1, Note2;
    var lines := [BEGIN, Note1(), Note2()];
    var i := 0;
    while i < |servers|
      invariant 0 <= i <= |servers|
      invariant lines == [BEGIN, Note1(), Note2()] + AllServerLines(servers[..i])
    {
      lines := lines + ServerLines(servers[i]);
      assert servers[..i + 1][..i] == servers[..i];
      i := i + 1;
    }
    assert servers[..i] == servers;
    text := JoinLines(lines + [END]);
  }

  // ---- what is rendered is a block the merge can handle ----

  predicate NoHash(s: string) {
    '#' !in s
  }

  predicate NoMarks(s: string) {
    '#' !in s && '$' !in s
  }

  /** No field holds a '#', with which every marker starts. */
  predicate PlainServer(server: Server) {
    && NoHash(server.id) && NoHash(server.serverName) && NoHash(server.transport) && NoHash(server.command)
    && (forall i :: 0 <= i < |server.args| ==> NoHash(server.args[i]))
    && NoHash(server.cwd)
    && (server.projectActivation.Some? ==>
          NoHash(server.projectActivation.value.0) && NoHash(server.projectActivation.value.1))
  }

  lemma {:induction false} JsonAddsNoHash(s: string)
    ensures NoHash(EscapeAll(s)) <==> NoHash(s)
    ensures NoHash(Json(s)) <==> NoHash(s)
  {
    if s != "" {
      JsonAddsNoHash(s[1..]);
      NoHashConcat([s[0]], s[1..]);
      NoHashConcat(EscapeChar(s[0]), EscapeAll(s[1..]));
      EscapedHash(s[0]);
      assert s == [s[0]] + s[1..];
      hide EscapeChar, NoHash;
    }
    Quoted(EscapeAll(s));
  }

  lemma Quoted(s: string)
    ensures NoHash("\"" + s + "\"") <==> NoHash(s)
  {
    NoHashConcat("\"", s);
    NoHashConcat("\"" + s, "\"");
    assert NoHash("\"");
    hide NoHash;
  }

  lemma NoHashConcat(a: string, b: string)
    ensures NoHash(a + b) <==> NoHash(a) && NoHash(b)
  {
  }

  lemma EscapedHash(c: char)
    ensures NoHash(EscapeChar(c)) <==> NoHash([c])
  {
  }

  lemma {:induction false} ListAddsNoHash(values: seq<string>)
    ensures NoHash(YamlList(values)) <==> forall i :: 0 <= i < |values| ==> NoHash(values[i])
  {
    if values != [] {
      YamlAddsNoHash(values[0]);
      ListAddsNoHash(values[1..]);
    }
  }

  lemma YamlAddsNoHash(value: string)
    ensures NoHash(YamlValue(value)) <==> NoHash(value)
  {
    if value != PROCESS_CWD {
      JsonAddsNoHash(value);
    }
  }

  ghost predicate AllHashFree(lines: seq<string>) {
    forall i :: 0 <= i < |lines| ==> NoHash(lines[i])
  }

  lemma FixedLinesHaveNoHash(enabled: bool)
    ensures NoHash(NameLine()) && NoHash(DisabledLine(enabled)) && AllHashFree(ReconnectLines())
  {
    var mode := "!!js process.env." + "FREECODE_WEB_MODE === '1'";
    assert NoHash("  name: ") && NoHash("\"@deepseek-ai/dsh-mcp-client\"");
    assert NoHash("!!js process.env.") && NoHash("FREECODE_WEB_MODE === '1'") && NoHash("true") && NoHash("  disabled: ");
    ReconnectLinesHaveNoHash();
    hide NoHash, ReconnectLines;
    NoHashConcat("  name: ", "\"@deepseek-ai/dsh-mcp-client\"");
    NoHashConcat("!!js process.env.", "FREECODE_WEB_MODE === '1'");
    NoHashConcat("  disabled: ", if enabled then mode else "true");
  }

  lemma ReconnectLinesHaveNoHash()
    ensures AllHashFree(ReconnectLines())
  {
  }

  lemma EntryLinesAddNoHash(server: Server)
    ensures PlainServer(server) ==> AllHashFree(EntryLines(server))
  {
    hide Json, NameLine, DisabledLine;
    FixedLinesHaveNoHash(server.enabled);
    assert NoHash("freecode-mcp-");
    JsonAddsNoHash("freecode-mcp-" + server.id);
  }

  lemma CommandLinesAddNoHash(server: Server)
    ensures PlainServer(server) ==> AllHashFree(CommandLines(server))
  {
    hide Json, YamlList, YamlValue, NoHash;
    var json, list, yaml := Json(server.transport), YamlList(server.args), YamlValue(server.cwd);
    JsonAddsNoHash(server.transport);
    JsonAddsNoHash(server.serverName);
    JsonAddsNoHash(server.command);
    ListAddsNoHash(server.args);
    YamlAddsNoHash(server.cwd);
    CommandTextsHaveNoHash();
    NoHashConcat("    transport: ", json);
    NoHashConcat("    serverName: ", Json(server.serverName));
    NoHashConcat("    command: ", Json(server.command));
    NoHashConcat("    args: [", list);
    NoHashConcat("    args: [" + list, "]");
    NoHashConcat("    cwd: ", yaml);
  }

  lemma CommandTextsHaveNoHash()
    ensures NoHash("    transport: ") && NoHash("    serverName: ") && NoHash("    command: ")
    ensures NoHash("    args: [") && NoHash("]") && NoHash("    cwd: ")
  {
  }

  lemma ActivationLinesAddNoHash(server: Server)
    ensures PlainServer(server) ==> AllHashFree(ActivationLines(server))
  {
    hide Json;
    if server.projectActivation.Some? {
      var (toolName, pathArgument) := server.projectActivation.value;
      JsonAddsNoHash(toolName);
      JsonAddsNoHash(pathArgument);
      assert NoHash("    projectActivation:") && NoHash("      toolName: ") && NoHash("      pathArgument: ");
      hide NoHash;
      NoHashConcat("      toolName: ", Json(toolName));
      NoHashConcat("      pathArgument: ", Json(pathArgument));
    }
  }

  lemma ServerLinesAddNoHash(server: Server)
    ensures PlainServer(server) ==> AllHashFree(ServerLines(server))
  {
    hide EntryLines, CommandLines, ActivationLines, ReconnectLines;
    EntryLinesAddNoHash(server);
    CommandLinesAddNoHash(server);
    ActivationLinesAddNoHash(server);
    FixedLinesHaveNoHash(server.enabled);
  }

  lemma {:induction false} LinesAddNoHash(servers: seq<Server>)
    ensures AllPlain(servers) ==> AllHashFree(AllServerLines(servers))
  {
    hide ServerLines, PlainServer;
    if servers != [] {
      LinesAddNoHash(servers[..|servers| - 1]);
      ServerLinesAddNoHash(servers[|servers| - 1]);
    }
  }

  lemma {:induction false} JoinAddsNoHash(lines: seq<string>)
    ensures AllHashFree(lines) ==> NoHash(JoinLines(lines))
  {
    if lines != [] {
      JoinAddsNoHash(lines[1..]);
    }
  }

  lemma {:induction false} JoinConcat(a: seq<string>, b: seq<string>)
    ensures JoinLines(a + b) == JoinLines(a) + JoinLines(b)
  {
    if a == [] {
      assert a + b == b;
    } else {
      JoinConcat(a[1..], b);
      assert (a + b)[1..] == a[1..] + b;
    }
  }

  lemma JoinParts(a: string, b: string, c: string, middle: seq<string>, z: string)
    ensures JoinLines([a, b, c] + middle + [z])
            == (a + "\n") + (b + "\n") + (c + "\n") + JoinLines(middle) + (z + "\n")
  {
    JoinOne(a);
    JoinOne(b);
    JoinOne(c);
    JoinOne(z);
    hide JoinLines;
    JoinConcat([a, b, c] + middle, [z]);
    JoinConcat([a, b, c], middle);
    JoinConcat([a] + [b], [c]);
    JoinConcat([a], [b]);
    assert [a, b, c] == [a] + [b] + [c];
  }

  lemma JoinOne(a: string)
    ensures JoinLines([a]) == a + "\n"
  {
    assert [a][1..] == [];
  }

  /** One '#' at the start, and the character that tells it from a marker. */
  ghost predicate OneMark(s: string, third: char) {
    |s| > 2 && s[0] == '#' && (forall k :: 0 < k < |s| ==> s[k] != '#') && '$' !in s && s[2] == third
  }

  lemma BeginHasOneMark()
    ensures OneMark(BEGIN, 'B') && OneMark(END, 'E')
  {
  }

  lemma Note1HasOneMark()
    ensures OneMark(Note1(), 'G')
  {
    var a, b, c := "# Generated by FreeCode. ", "Edit mcp/servers.json ", "to toggle entries.";
    assert OneMark(a, 'G') && NoMarks(b) && NoMarks(c);
    OneMarkExtends(a, b, 'G');
    OneMarkExtends(a + b, c, 'G');
  }

  lemma Note2HasOneMark()
    ensures OneMark(Note2(), 'T')
  {
    var a, b, c, d := "# The MCP client bridge ", "is bundled; external ", "server executables are ", "optional prerequisites.";
    assert OneMark(a, 'T') && NoMarks(b) && NoMarks(c) && NoMarks(d);
    OneMarkExtends(a, b, 'T');
    OneMarkExtends(a + b, c, 'T');
    OneMarkExtends(a + b + c, d, 'T');
  }

  lemma OneMarkExtends(s: string, t: string, third: char)
    requires OneMark(s, third) && NoMarks(t)
    ensures OneMark(s + t, third)
  {
    assert forall k :: |s| <= k < |s| + |t| ==> (s + t)[k] in t;
  }

  /** A marker can only start where a line with a '#' starts, and only on a line that agrees with it. */
  lemma MarkerOnOneMarkLine(before: string, line: string, after: string, m: string, third: char, k: int)
    requires OneMark(line, third) && |m| > 2 && m[0] == '#' && m[2] != third
    requires |before| <= k < |before| + |line| + 1
    ensures !OccursAt(before + (line + "\n") + after, m, k)
  {
    var text := before + (line + "\n") + after;
    if k + |m| <= |text| {
      if k == |before| {
        assert text[k + 2] == line[2];
        OneCharacterDiffers(text, m, k, k + 2);
      } else {
        assert text[k] == (line + "\n")[k - |before|];
        OneCharacterDiffers(text, m, k, k);
      }
    }
  }

  lemma MarkerInUnmarked(before: string, body: string, after: string, m: string, k: int)
    requires NoHash(body) && m != "" && m[0] == '#' && |before| <= k < |before| + |body|
    ensures !OccursAt(before + body + after, m, k)
  {
    assert (before + body + after)[k] == body[k - |before|] && body[k - |before|] in body;
    OneCharacterDiffers(before + body + after, m, k, k);
  }

  lemma MarkerOnItsLine(before: string, m: string, after: string, k: int)
    requires |m| > 2 && OneMark(m, m[2]) && |before| <= k < |before| + |m| + 1
    ensures OccursAt(before + (m + "\n") + after, m, k) <==> k == |before|
  {
    var text := before + (m + "\n") + after;
    if k == |before| {
      assert text[k..k + |m|] == m;
    } else {
      assert text[k] == (m + "\n")[k - |before|];
      OneCharacterDiffers(text, m, k, k);
    }
  }

  // ---- which servers render literally ----

  predicate LiteralServer(server: Server) {
    && Literal(server.id) && Literal(server.serverName) && Literal(server.transport) && Literal(server.command)
    && (forall i :: 0 <= i < |server.args| ==> Literal(server.args[i]))
    && Literal(server.cwd)
    && (server.projectActivation.Some? ==>
          Literal(server.projectActivation.value.0) && Literal(server.projectActivation.value.1))
  }

  lemma LiteralWithout(s: string)
    requires '$' !in s
    ensures Literal(s)
  {
  }

  /** The characters that make a pattern of a dollar sign. */
  predicate Completes(c: char) {
    c in "$&`'"
  }

  /** No pattern straddles the seam. */
  lemma LiteralConcat(a: string, b: string)
    requires a != "" && b != "" ==> a[|a| - 1] != '$' || !Completes(b[0])
    ensures Literal(a + b) <==> Literal(a) && Literal(b)
  {
    var s := a + b;
    if Literal(s) {
      forall k | 0 <= k < |a| - 1 && a[k] == '$'
        ensures !Completes(a[k + 1])
      {
        assert s[k] == '$' && s[k + 1] == a[k + 1];
      }
      forall k | 0 <= k < |b| - 1 && b[k] == '$'
        ensures !Completes(b[k + 1])
      {
        assert s[|a| + k] == '$' && s[|a| + k + 1] == b[k + 1];
      }
    }
    if Literal(a) && Literal(b) {
      forall k | 0 <= k < |s| - 1 && s[k] == '$'
        ensures !Completes(s[k + 1])
      {
        if k >= |a| {
          assert b[k - |a|] == '$' && s[k + 1] == b[k + 1 - |a|];
        } else if k < |a| - 1 {
          assert a[k] == '$' && s[k + 1] == a[k + 1];
        }
      }
    }
  }

  lemma EscapedCharacter(c: char)
    ensures |EscapeChar(c)| > 0
    ensures if c == '$' then EscapeChar(c) == "$" else '$' !in EscapeChar(c)
    ensures Completes(EscapeChar(c)[0]) <==> Completes(c)
  {
  }

  /** A seam after a dollar sign is a pattern exactly when the next character completes it. */
  lemma LiteralAfterDollar(rest: string)
    ensures Literal("$" + rest) <==> Literal(rest) && (rest != "" ==> !Completes(rest[0]))
  {
    var s := "$" + rest;
    if rest != "" && Completes(rest[0]) {
      assert s[0] == '$' && s[1] == rest[0];
    } else {
      LiteralWithoutPair();
      LiteralConcat("$", rest);
    }
  }

  lemma LiteralWithoutPair()
    ensures Literal("$")
  {
  }

  lemma {:induction false} EscapingIsLiteral(s: string)
    ensures Literal(EscapeAll(s)) <==> Literal(s)
    ensures s != "" ==> EscapeAll(s) != "" && (Completes(EscapeAll(s)[0]) <==> Completes(s[0]))
    ensures s == "" ==> EscapeAll(s) == ""
  {
    if s != "" {
      var c, rest := s[0], s[1..];
      EscapingIsLiteral(rest);
      EscapedCharacter(c);
      assert s == [c] + rest;
      hide Literal, EscapeChar, Completes;
      if c == '$' {
        LiteralAfterDollar(rest);
        LiteralAfterDollar(EscapeAll(rest));
      } else {
        LiteralWithout([c]);
        LiteralWithout(EscapeChar(c));
        LiteralConcat([c], rest);
        LiteralConcat(EscapeChar(c), EscapeAll(rest));
      }
    }
  }

  lemma JsonIsLiteral(s: string)
    ensures Literal(Json(s)) <==> Literal(s)
  {
    EscapingIsLiteral(s);
    var quote := "\"";
    LiteralWithout(quote);
    assert quote[0] == '"' && !Completes('"');
    hide Literal, EscapeAll, Completes;
    LiteralConcat(quote, EscapeAll(s));
    LiteralConcat(quote + EscapeAll(s), quote);
  }

  lemma YamlIsLiteral(value: string)
    ensures Literal(YamlValue(value)) <==> Literal(value)
    ensures YamlValue(value) != "" && YamlValue(value)[|YamlValue(value)| - 1] != '$' && !Completes(YamlValue(value)[0])
  {
    hide EscapeAll;
    if value == PROCESS_CWD {
      assert Literal(PROCESS_CWD);
      assert Literal("!!js process.cwd()");
    } else {
      JsonIsLiteral(value);
    }
  }

  lemma CommaSeparated(a: string, b: string)
    ensures Literal(a + ", " + b) <==> Literal(a) && Literal(b)
    ensures b != "" ==> (a + ", " + b)[|a + ", " + b| - 1] == b[|b| - 1]
  {
    var comma := ", ";
    LiteralWithout(comma);
    assert comma[0] == ',' && comma[1] == ' ' && !Completes(',');
    hide Literal, Completes;
    LiteralConcat(a, comma);
    LiteralConcat(a + comma, b);
  }

  lemma {:induction false} ListIsLiteral(values: seq<string>)
    ensures Literal(YamlList(values)) <==> forall i :: 0 <= i < |values| ==> Literal(values[i])
    ensures values == [] ==> YamlList(values) == ""
    ensures values != [] ==> YamlList(values) != "" && YamlList(values)[|YamlList(values)| - 1] != '$'
  {
    if values != [] {
      var head, rest := values[0], values[1..];
      hide YamlValue, Literal;
      YamlIsLiteral(head);
      ListIsLiteral(rest);
      if |values| > 1 {
        CommaSeparated(YamlValue(head), YamlList(rest));
      }
    }
  }

  ghost predicate AllLiteral(lines: seq<string>) {
    forall i :: 0 <= i < |lines| ==> Literal(lines[i])
  }

  lemma AllLiteralConcat(a: seq<string>, b: seq<string>)
    ensures AllLiteral(a + b) <==> AllLiteral(a) && AllLiteral(b)
  {
    hide Literal;
    if AllLiteral(a + b) {
      assert forall i :: 0 <= i < |a| ==> (a + b)[i] == a[i];
      assert forall i :: 0 <= i < |b| ==> (a + b)[|a| + i] == b[i];
    }
  }

  /** A fixed text before a value on a line. */
  lemma Prefixed(text: string, value: string)
    requires text != "" && '$' !in text
    ensures Literal(text + value) <==> Literal(value)
  {
    LiteralWithout(text);
    assert text[|text| - 1] in text;
    hide Literal;
    LiteralConcat(text, value);
  }

  lemma EntryLinesAreLiteral(server: Server)
    ensures AllLiteral(EntryLines(server)) <==> Literal(server.id)
  {
    var prefix := "freecode-mcp-";
    FixedEntryLines(server.enabled);
    hide Json, NameLine, DisabledLine;
    Prefixed(prefix, server.id);
    JsonIsLiteral(prefix + server.id);
    Prefixed("- id: ", Json(prefix + server.id));
    hide Literal;
    var lines := EntryLines(server);
    assert lines[0] == "- id: " + Json(prefix + server.id) && lines[1] == NameLine();
    assert lines[2] == DisabledLine(server.enabled) && lines[3] == "  config:";
  }

  lemma FixedEntryLines(enabled: bool)
    ensures Literal(NameLine()) && Literal(DisabledLine(enabled)) && Literal("  config:")
  {
    assert '$' !in "  name: " && '$' !in "\"@deepseek-ai/dsh-mcp-client\"";
    assert '$' !in "!!js process.env." && '$' !in "FREECODE_WEB_MODE === '1'";
    assert '$' !in "  disabled: " && '$' !in "true" && '$' !in "  config:";
    LiteralWithout(NameLine());
    LiteralWithout(DisabledLine(enabled));
    LiteralWithout("  config:");
  }

  lemma Bracketed(line: string)
    ensures Literal(line + "]") <==> Literal(line)
  {
    var close := "]";
    LiteralWithout(close);
    assert close[0] == ']' && !Completes(']');
    hide Literal, Completes;
    LiteralConcat(line, close);
  }

  lemma ArgsLineIsLiteral(args: seq<string>)
    ensures Literal("    args: [" + YamlList(args) + "]") <==> forall i :: 0 <= i < |args| ==> Literal(args[i])
  {
    hide YamlList, Literal;
    ListIsLiteral(args);
    Prefixed("    args: [", YamlList(args));
    Bracketed("    args: [" + YamlList(args));
  }

  lemma FiveLines(a: string, b: string, c: string, d: string, e: string)
    ensures AllLiteral([a, b, c, d, e]) <==> Literal(a) && Literal(b) && Literal(c) && Literal(d) && Literal(e)
  {
    hide Literal;
    var lines := [a, b, c, d, e];
    assert lines[0] == a && lines[1] == b && lines[2] == c && lines[3] == d && lines[4] == e;
  }

  lemma CommandLinesAreLiteral(server: Server)
    ensures AllLiteral(CommandLines(server)) <==>
            && Literal(server.transport) && Literal(server.serverName) && Literal(server.command) && Literal(server.cwd)
            && forall i :: 0 <= i < |server.args| ==> Literal(server.args[i])
  {
    hide Json, YamlList, YamlValue, Literal, AllLiteral;
    JsonIsLiteral(server.transport);
    JsonIsLiteral(server.serverName);
    JsonIsLiteral(server.command);
    YamlIsLiteral(server.cwd);
    CommandPrefixes(server);
    ArgsLineIsLiteral(server.args);
    FiveLines("    transport: " + Json(server.transport), "    serverName: " + Json(server.serverName),
              "    command: " + Json(server.command), "    args: [" + YamlList(server.args) + "]",
              "    cwd: " + YamlValue(server.cwd));
  }

  lemma CommandPrefixes(server: Server)
    ensures Literal("    transport: " + Json(server.transport)) <==> Literal(Json(server.transport))
    ensures Literal("    serverName: " + Json(server.serverName)) <==> Literal(Json(server.serverName))
    ensures Literal("    command: " + Json(server.command)) <==> Literal(Json(server.command))
    ensures Literal("    cwd: " + YamlValue(server.cwd)) <==> Literal(YamlValue(server.cwd))
  {
    hide Json, YamlValue, Literal;
    Prefixed("    transport: ", Json(server.transport));
    Prefixed("    serverName: ", Json(server.serverName));
    Prefixed("    command: ", Json(server.command));
    Prefixed("    cwd: ", YamlValue(server.cwd));
  }

  lemma ThreeLines(a: string, b: string, c: string)
    ensures AllLiteral([a, b, c]) <==> Literal(a) && Literal(b) && Literal(c)
  {
    hide Literal;
    var lines := [a, b, c];
    assert lines[0] == a && lines[1] == b && lines[2] == c;
  }

  lemma NoLines()
    ensures AllLiteral([])
  {
  }

  lemma ActivationPrefixes(toolName: string, pathArgument: string)
    ensures Literal("    projectActivation:")
    ensures Literal("      toolName: " + Json(toolName)) <==> Literal(Json(toolName))
    ensures Literal("      pathArgument: " + Json(pathArgument)) <==> Literal(Json(pathArgument))
  {
    hide Json, Literal;
    LiteralWithout("    projectActivation:");
    Prefixed("      toolName: ", Json(toolName));
    Prefixed("      pathArgument: ", Json(pathArgument));
  }

  lemma ActivationLinesAreLiteral(server: Server)
    ensures AllLiteral(ActivationLines(server)) <==>
            (server.projectActivation.Some? ==>
               Literal(server.projectActivation.value.0) && Literal(server.projectActivation.value.1))
  {
    hide Json, Literal, AllLiteral;
    if server.projectActivation.Some? {
      var (toolName, pathArgument) := server.projectActivation.value;
      JsonIsLiteral(toolName);
      JsonIsLiteral(pathArgument);
      ActivationPrefixes(toolName, pathArgument);
      ThreeLines("    projectActivation:", "      toolName: " + Json(toolName), "      pathArgument: " + Json(pathArgument));
    } else {
      NoLines();
    }
  }

  lemma NoDollarIsLiteral(s: string)
    requires '$' !in s
    ensures Literal(s)
  {
  }

  lemma ReconnectLinesAreLiteral()
    ensures AllLiteral(ReconnectLines())
  {
    var a, b := "    failOnStartupError: false", "    reconnect:";
    var c, d, e, f := "      enabled: true", "      initialDelayMs: 500", "      maxDelayMs: 30000", "      maxAttempts: 10";
    assert ReconnectLines() == [a, b, c] + [d, e, f];
    hide Literal;
    NoDollarIsLiteral(a);
    NoDollarIsLiteral(b);
    NoDollarIsLiteral(c);
    NoDollarIsLiteral(d);
    NoDollarIsLiteral(e);
    NoDollarIsLiteral(f);
    ThreeLines(a, b, c);
    ThreeLines(d, e, f);
    AllLiteralConcat([a, b, c], [d, e, f]);
  }

  lemma ServerLinesAreLiteral(server: Server)
    ensures AllLiteral(ServerLines(server)) <==> LiteralServer(server)
  {
    hide EntryLines, CommandLines, ActivationLines, ReconnectLines, Literal, AllLiteral;
    EntryLinesAreLiteral(server);
    CommandLinesAreLiteral(server);
    ActivationLinesAreLiteral(server);
    ReconnectLinesAreLiteral();
    AllLiteralConcat(EntryLines(server), CommandLines(server));
    AllLiteralConcat(EntryLines(server) + CommandLines(server), ActivationLines(server));
    AllLiteralConcat(EntryLines(server) + CommandLines(server) + ActivationLines(server), ReconnectLines());
  }

  ghost predicate AllPlain(servers: seq<Server>) {
    forall i :: 0 <= i < |servers| ==> PlainServer(servers[i])
  }

  ghost predicate AllLiteralServers(servers: seq<Server>) {
    forall i :: 0 <= i < |servers| ==> LiteralServer(servers[i])
  }

  lemma LiteralServersSnoc(servers: seq<Server>)
    requires servers != []
    ensures AllLiteralServers(servers) <==>
            AllLiteralServers(servers[..|servers| - 1]) && LiteralServer(servers[|servers| - 1])
  {
    hide LiteralServer;
    var m := |servers| - 1;
    assert forall i :: 0 <= i < m ==> servers[..m][i] == servers[i];
  }

  lemma {:induction false} LinesAreLiteral(servers: seq<Server>)
    ensures AllLiteral(AllServerLines(servers)) <==> AllLiteralServers(servers)
  {
    if servers != [] {
      hide ServerLines, AllLiteralServers, LiteralServer, AllLiteral;
      var m := |servers| - 1;
      LinesAreLiteral(servers[..m]);
      ServerLinesAreLiteral(servers[m]);
      LiteralServersSnoc(servers);
      AllLiteralConcat(AllServerLines(servers[..m]), ServerLines(servers[m]));
    }
  }

  lemma {:induction false} JoinIsLiteral(lines: seq<string>)
    ensures Literal(JoinLines(lines)) <==> AllLiteral(lines)
    ensures lines != [] ==> JoinLines(lines) != ""
  {
    if lines == [] {
      assert Literal("");
    } else {
      JoinIsLiteral(lines[1..]);
      var end := "\n";
      LiteralWithout(end);
      assert end[0] == '\n' && !Completes('\n');
      hide Literal, Completes;
      LiteralConcat(lines[0], end);
      LiteralConcat(lines[0] + end, JoinLines(lines[1..]));
      assert lines == [lines[0]] + lines[1..];
      AllLiteralConcat([lines[0]], lines[1..]);
    }
  }

  /** What RenderManagedPatch produces for plain servers is a block; and literal to replace exactly when
      every field is: the hypotheses of the merge results. */
  lemma RenderedIsABlock(servers: seq<Server>)
    requires AllPlain(servers)
    ensures IsBlock(Render(servers)) && Normalized(Render(servers)) == Render(servers)
    ensures Literal(Render(servers)) <==> AllLiteralServers(servers)
  {
    hide AllServerLines, Note1, Note2;
    var body := JoinLines(AllServerLines(servers));
    LinesAddNoHash(servers);
    JoinAddsNoHash(AllServerLines(servers));
    JoinParts(BEGIN, Note1(), Note2(), AllServerLines(servers), END);
    Note1HasOneMark();
    Note2HasOneMark();
    BeginHasOneMark();
    PartsAreABlock(Note1(), Note2(), body);
    JoinIsLiteral(AllServerLines(servers));
    LinesAreLiteral(servers);
  }

  lemma PartsAreABlock(n1: string, n2: string, body: string)
    requires OneMark(n1, 'G') && OneMark(n2, 'T') && NoHash(body)
    ensures var n := (BEGIN + "\n") + (n1 + "\n") + (n2 + "\n") + body + (END + "\n");
            IsBlock(n) && Normalized(n) == n && (Literal(n) <==> Literal(body))
  {
    var n := (BEGIN + "\n") + (n1 + "\n") + (n2 + "\n") + body + (END + "\n");
    BeginHasOneMark();
    forall k
      ensures OccursAt(n, BEGIN, k) <==> k == 0
      ensures OccursAt(n, END, k) <==> k == |n| - |END| - 1
    {
      MarkerPositions(n1, n2, body, k);
    }
    var head := (BEGIN + "\n") + (n1 + "\n") + (n2 + "\n");
    NoDollar(n1, n2);
    LiteralWithout(head);
    LiteralWithout(END + "\n");
    LiteralConcat(head, body);
    LiteralConcat(head + body, END + "\n");
  }

  lemma NoDollar(n1: string, n2: string)
    requires '$' !in n1 && '$' !in n2
    ensures var head := (BEGIN + "\n") + (n1 + "\n") + (n2 + "\n");
            '$' !in head && head[|head| - 1] == '\n'
    ensures '$' !in END + "\n" && (END + "\n")[0] == '#'
  {
    BeginHasOneMark();
  }

  /** In the three lines above the body only the first is a marker. */
  lemma MarkersAboveBody(n1: string, n2: string, rest: string, k: int)
    requires OneMark(n1, 'G') && OneMark(n2, 'T') && 0 <= k < |BEGIN| + |n1| + |n2| + 3
    ensures var n := (BEGIN + "\n") + (n1 + "\n") + (n2 + "\n") + rest;
            !OccursAt(n, END, k) && (OccursAt(n, BEGIN, k) <==> k == 0)
  {
    hide OneMark, OccursAt;
    BeginHasOneMark();
    var b, l1, l2 := BEGIN + "\n", n1 + "\n", n2 + "\n";
    var n := b + l1 + l2 + rest;
    if k < |b| {
      assert n == "" + b + (l1 + l2 + rest);
      MarkerOnItsLine("", BEGIN, l1 + l2 + rest, k);
      MarkerOnOneMarkLine("", BEGIN, l1 + l2 + rest, END, 'B', k);
    } else if k < |b| + |l1| {
      assert n == b + l1 + (l2 + rest);
      MarkerOnOneMarkLine(b, n1, l2 + rest, BEGIN, 'G', k);
      MarkerOnOneMarkLine(b, n1, l2 + rest, END, 'G', k);
    } else {
      MarkerOnOneMarkLine(b + l1, n2, rest, BEGIN, 'T', k);
      MarkerOnOneMarkLine(b + l1, n2, rest, END, 'T', k);
    }
  }

  lemma MarkersFromBody(head: string, body: string, k: int)
    requires NoHash(body) && |head| <= k < |head| + |body| + |END| + 1
    ensures var n := head + body + (END + "\n");
            !OccursAt(n, BEGIN, k) && (OccursAt(n, END, k) <==> k == |n| - |END| - 1)
  {
    hide NoHash, OccursAt;
    BeginHasOneMark();
    var e := END + "\n";
    var n := head + body + e;
    if k < |head| + |body| {
      MarkerInUnmarked(head, body, e, BEGIN, k);
      MarkerInUnmarked(head, body, e, END, k);
    } else {
      assert n == (head + body) + e + "";
      MarkerOnItsLine(head + body, END, "", k);
      MarkerOnOneMarkLine(head + body, END, "", BEGIN, 'E', k);
    }
  }

  lemma MarkerPositions(n1: string, n2: string, body: string, k: int)
    requires OneMark(n1, 'G') && OneMark(n2, 'T') && NoHash(body)
    ensures var n := (BEGIN + "\n") + (n1 + "\n") + (n2 + "\n") + body + (END + "\n");
            && (OccursAt(n, BEGIN, k) <==> k == 0)
            && (OccursAt(n, END, k) <==> k == |n| - |END| - 1)
  {
    hide OneMark, NoHash;
    var head := (BEGIN + "\n") + (n1 + "\n") + (n2 + "\n");
    var n := head + body + (END + "\n");
    if 0 <= k < |head| {
      assert n == head + (body + (END + "\n"));
      MarkersAboveBody(n1, n2, body + (END + "\n"), k);
    } else if |head| <= k < |n| {
      MarkersFromBody(head, body, k);
    }
  }

  /** So writing the catalog again and again keeps the user's text and leaves one current block. */
  lemma RewritingTheCatalog(existing: string, first: seq<Server>, second: seq<Server>)
    requires Clean(existing) && AllPlain(first) && AllLiteralServers(first) && AllPlain(second) && AllLiteralServers(second)
    ensures Merge(Merge(existing, Render(first)), Render(second)) == Merge(existing, Render(second))
    ensures Merge(existing, Render(second)) == Before(existing) + Render(second) + After(existing)
  {
    RenderedIsABlock(first);
    RenderedIsABlock(second);
    hide Render, AllPlain, AllLiteralServers;
    MergeIsIdempotent(existing, Render(first), Render(second));
    MergeKeepsUserText(existing, Render(second));
  }

  // ---- replacement patterns, exactly ----

  lemma LiteralTail(n: string)
    requires n != "" && !(|n| >= 2 && n[0] == '$' && n[1] in "$&`'")
    ensures Literal(n) <==> Literal(n[1..])
  {
    assert n == [n[0]] + n[1..];
    LiteralConcat([n[0]], n[1..]);
    assert Literal([n[0]]);
  }

  /** With nothing before and after, a pattern shortens the text, or puts the replaced text in. */
  lemma {:induction false} ExpandedLength(n: string, matched: string)
    ensures var r := Expand(n, "", matched, "");
            (|r| <= |n| && (!Literal(n) ==> |r| < |n|)) || |r| >= |matched|
    decreases |n|
  {
    if n == "" {
    } else if |n| >= 2 && n[0] == '$' && n[1] in "$&`'" {
      ExpandedLength(n[2..], matched);
    } else {
      ExpandedLength(n[1..], matched);
      LiteralTail(n);
    }
  }

  /** A replacement text stands for itself, whatever it replaces, exactly when it holds no pattern. */
  lemma ExpandsToItselfExactly(n: string)
    ensures (forall before, matched, after :: Expand(n, before, matched, after) == n) <==> Literal(n)
  {
    if Literal(n) {
      forall before, matched, after
        ensures Expand(n, before, matched, after) == n
      {
        LiteralExpandsToItself(n, before, matched, after);
      }
    } else {
      var matched := n + n + "x";
      ExpandedLength(n, matched);
      assert Expand(n, "", matched, "") != n;
    }
  }

  const EMPTY_SERVER := Server("", "", "", "", [], "", None, false)

  lemma {:induction false} JoinIsLong(lines: seq<string>)
    ensures |JoinLines(lines)| >= |lines|
  {
    if lines != [] {
      JoinIsLong(lines[1..]);
    }
  }

  lemma {:induction false} ServerLinesAreMany(servers: seq<Server>)
    ensures |AllServerLines(servers)| >= |servers|
  {
    if servers != [] {
      ServerLinesAreMany(servers[..|servers| - 1]);
    }
  }

  lemma LongCatalog(n: nat) returns (servers: seq<Server>)
    ensures AllPlain(servers) && AllLiteralServers(servers) && |Render(servers)| > n
  {
    servers := seq(n, _ => EMPTY_SERVER);
    ServerLinesAreMany(servers);
    JoinIsLong([BEGIN, Note1(), Note2()] + AllServerLines(servers) + [END]);
  }

  /** What the replacement of a catalog in a file that holds nothing else gives. */
  lemma ReplacingInEmptyFile(first: seq<Server>, g: string)
    requires AllPlain(first) && AllLiteralServers(first)
    ensures Merge(Merge("", Render(first)), g) == Expand(Normalized(g), "", Render(first), "")
    ensures Merge("", g) == Normalized(g) && Clean("")
  {
    var n := Render(first);
    RenderedIsABlock(first);
    hide Render;
    NothingInEmptyText();
    assert Merge("", n) == n;
    MergeKeepsUserText("", n);
    assert n[..0] == "" && n[0..|n|] == n && n[|n|..] == "";
  }

  lemma NothingInEmptyText()
    ensures FindBlock("").None? && Clean("") && Before("") == "" && After("") == ""
  {
    assert Find("", BEGIN, 0) == None;
  }

  /** A text written over any earlier catalog in any clean file comes out as if the catalog had never been
      there, exactly when it holds no replacement pattern. */
  lemma ReplacingExactlyWhenLiteral(g: string)
    ensures (forall existing, first :: Clean(existing) && AllPlain(first) && AllLiteralServers(first) ==>
               Merge(Merge(existing, Render(first)), g) == Merge(existing, g))
            <==> Literal(Normalized(g))
  {
    if Literal(Normalized(g)) {
      forall existing, first | Clean(existing) && AllPlain(first) && AllLiteralServers(first)
        ensures Merge(Merge(existing, Render(first)), g) == Merge(existing, g)
      {
        RenderedIsABlock(first);
        MergeIsIdempotent(existing, Render(first), g);
      }
    } else {
      var first := LongCatalog(|Normalized(g)|);
      ReplacingInEmptyFile(first, g);
      ExpandedLength(Normalized(g), Render(first));
      assert Merge(Merge("", Render(first)), g) != Merge("", g);
    }
  }

  /** For the catalog itself: exactly when no field of any server holds one. */
  lemma CatalogReplacesExactlyWhenLiteral(servers: seq<Server>)
    requires AllPlain(servers)
    ensures (forall existing, first :: Clean(existing) && AllPlain(first) && AllLiteralServers(first) ==>
               Merge(Merge(existing, Render(first)), Render(servers)) == Merge(existing, Render(servers)))
            <==> AllLiteralServers(servers)
  {
    RenderedIsABlock(servers);
    hide Render, Literal, AllPlain, AllLiteralServers;
    ReplacingExactlyWhenLiteral(Render(servers));
  }

  /** Every pattern in it is a dollar pair. */
  predicate OnlyPairs(n: string) {
    forall k :: 0 <= k < |n| - 1 && n[k] == '$' ==> n[k + 1] !in "&`'"
  }

  lemma {:induction false} PairsShorten(n: string, before: string, matched: string, after: string)
    requires OnlyPairs(n)
    ensures var r := Expand(n, before, matched, after); |r| <= |n| && (!Literal(n) ==> |r| < |n|)
    decreases |n|
  {
    if n == "" {
    } else if |n| >= 2 && n[0] == '$' && n[1] in "$&`'" {
      assert n[1] == '$' by {
        assert n[0] == '$';
      }
      assert forall k :: 0 <= k < |n[2..]| ==> n[2..][k] == n[k + 2];
      PairsShorten(n[2..], before, matched, after);
    } else {
      assert forall k :: 0 <= k < |n[1..]| ==> n[1..][k] == n[k + 1];
      PairsShorten(n[1..], before, matched, after);
      LiteralTail(n);
    }
  }

  lemma PairsAreLost(existing: string, g: string, n: string)
    requires Clean(existing) && FindBlock(existing).None? && IsBlock(g) && Literal(g) && Normalized(g) == g
    requires Normalized(n) == n && OnlyPairs(n) && !Literal(n)
    ensures Merge(existing, n) == Before(existing) + n
    ensures |Merge(Merge(existing, g), n)| < |Merge(existing, n)|
  {
    MergeKeepsUserText(existing, g);
    var p, r := Before(existing), Merge(existing, g);
    assert r == p + g + "" && r[..|p|] == p;
    InsertedAfter(existing, n);
    RewrittenLength(r, |p|, n);
  }

  lemma InsertedAfter(existing: string, n: string)
    requires FindBlock(existing).None? && Normalized(n) == n
    ensures Merge(existing, n) == Before(existing) + n && After(existing) == ""
  {
    hide FindBlock, TrimEnd;
  }

  lemma RewrittenLength(r: string, i: nat, n: string)
    requires FindBlock(r) == Some((i, |r|)) && Normalized(n) == n && OnlyPairs(n) && !Literal(n)
    ensures |Merge(r, n)| < i + |n|
  {
    hide FindBlock, OnlyPairs, Literal;
    PairsShorten(n, r[..i], r[i..|r|], r[|r|..]);
  }

  /** A server whose argument holds "$$": the first insertion keeps it, and rewriting any earlier catalog in
      any clean file without a block loses at least one dollar sign of it. */
  lemma DollarPairsAreHalved(existing: string, first: seq<Server>, servers: seq<Server>, i: nat, j: nat, k: nat)
    requires AllPlain(servers) && OnlyPairs(Render(servers))
    requires i < |servers| && j < |servers[i].args| && k + 1 < |servers[i].args[j]|
    requires servers[i].args[j][k] == '$' && servers[i].args[j][k + 1] == '$'
    requires Clean(existing) && FindBlock(existing).None? && AllPlain(first) && AllLiteralServers(first)
    ensures Merge(existing, Render(servers)) == Before(existing) + Render(servers)
    ensures |Merge(Merge(existing, Render(first)), Render(servers))| < |Merge(existing, Render(servers))|
  {
    assert !Literal(servers[i].args[j]);
    assert !LiteralServer(servers[i]);
    hide Render, LiteralServer, AllPlain, PlainServer, Literal, IsBlock, OnlyPairs, FindBlock, Clean, Merge, Before, Normalized;
    RenderedIsABlock(servers);
    RenderedIsABlock(first);
    PairsAreLost(existing, Render(first), Render(servers));
  }
}
