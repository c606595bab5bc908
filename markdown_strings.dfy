/**
 * The chat's markdown helpers: splitting a message into prose and fenced
 * code blocks, finding its first code block, and wrapping code in (or
 * unwrapping it from) a python code fence.
 */
module MarkdownStrings {
  import opened Wrappers
  import opened Text

  const PythonBlockStartWithNewLine := "```python\n"
  const PythonBlockStart := "```python"
  const PythonBlockEndWithNewLine := "\n```"
  const Fence := "```"

  // ---------------------------------------------------------------------
  // Messages
  // ---------------------------------------------------------------------

  datatype Role = System | User | Assistant | Tool | Function

  /** A chat message; `None` stands for a message without text content. */
  datatype Message = Message(role: Role, content: Option<string>)

  /** The text of a user or assistant message; nothing for the other roles. */
  function GetContentStringFromMessage(m: Message): (r: Option<string>)
    ensures r.Some? ==> m.role in {User, Assistant}
    ensures m.role in {User, Assistant} ==> r == m.content
  {
    if m.role == User || m.role == Assistant then m.content else None
  }

  // ---------------------------------------------------------------------
  // Splitting around code blocks
  // ---------------------------------------------------------------------

  /** A non-greedy match of "```" anything "```": no fence starts strictly between the two. */
  predicate IsCodeBlock(p: string) {
    && |p| >= 6 && StartsWith(p, Fence) && EndsWith(p, Fence)
    && forall k :: 3 <= k < |p| - 3 ==> !OccursAt(p, Fence, k)
  }

  /** `s` holds a complete block: a fence with another fence after it. */
  predicate HasCodeBlock(s: string) {
    Contains(s, Fence) && Contains(s[IndexOf(s, Fence) + 3..], Fence)
  }

  /**
   * `s.split(/(```[\s\S]*?```)/)`: prose and matched blocks alternate, the
   * blocks kept because the pattern captures them.
   */
  function CodeBlockSplit(s: string): (parts: seq<string>)
    ensures SplitShape(parts)
    ensures Concat(parts) == s
    ensures HasCodeBlock(s) <==> |parts| > 1
    decreases |s|
  {
    if !HasCodeBlock(s) then
      SingleShape(s);
      [s]
    else
      var i := IndexOf(s, Fence);
      var j := IndexOf(s[i + 3..], Fence);
      BlockFacts(s, i, j);
      var tail := CodeBlockSplit(s[i + j + 6..]);
      SplitAround(s, i, j, tail);
      [s[..i], s[i..i + j + 6]] + tail
  }

  /** Text without a complete block is split into itself alone. */
  lemma SingleShape(s: string)
    requires !HasCodeBlock(s)
    ensures SplitShape([s]) && Concat([s]) == s
  {
    assert [s][1..] == [];
  }

  /** The prose before the first block, the block, then the split of the rest. */
  lemma SplitAround(s: string, i: int, j: int, tail: seq<string>)
    requires 0 <= i && 0 <= j && i + j + 6 <= |s|
    requires !Contains(s[..i], Fence) && IsCodeBlock(s[i..i + j + 6])
    requires OpensAtFirstFence(s[..i], s[i..i + j + 6])
    requires SplitShape(tail) && Concat(tail) == s[i + j + 6..]
    ensures SplitShape([s[..i], s[i..i + j + 6]] + tail)
    ensures Concat([s[..i], s[i..i + j + 6]] + tail) == s
  {
    var text, block, rest := s[..i], s[i..i + j + 6], s[i + j + 6..];
    assert s == text + block + rest;
    PrependBlock(text, block, tail);
  }

  /**
   * Prose at even positions (free of fences except in the last piece), code
   * blocks at odd positions, and no complete block left in the last piece.
   */
  predicate SplitShape(parts: seq<string>) {
    && |parts| % 2 == 1
    && (forall i :: 0 <= i < |parts| && i % 2 == 1 ==> IsCodeBlock(parts[i]))
    && (forall i :: 0 <= i < |parts| - 1 && i % 2 == 0 ==> !Contains(parts[i], Fence))
    && (forall i :: 0 <= i < |parts| - 1 && i % 2 == 0 ==> OpensAtFirstFence(parts[i], parts[i + 1]))
    && !HasCodeBlock(parts[|parts| - 1])
  }

  /**
   * The block after a piece of prose opens at the first fence of the text:
   * none starts inside the prose, not even one running into the block.
   */
  predicate OpensAtFirstFence(text: string, block: string) {
    |block| >= 2 && !Contains(text + block[..2], Fence)
  }

  lemma PrependBlock(text: string, block: string, tail: seq<string>)
    requires !Contains(text, Fence) && IsCodeBlock(block) && SplitShape(tail)
    requires OpensAtFirstFence(text, block)
    ensures SplitShape([text, block] + tail)
    ensures Concat([text, block] + tail) == text + block + Concat(tail)
  {
    PrependShape(text, block, tail);
    PrependConcat(text, block, tail);
  }

  lemma PrependShape(text: string, block: string, tail: seq<string>)
    requires !Contains(text, Fence) && IsCodeBlock(block) && SplitShape(tail)
    requires OpensAtFirstFence(text, block)
    ensures SplitShape([text, block] + tail)
  {
    var parts := [text, block] + tail;
    assert |parts| == |tail| + 2;
    forall k | 2 <= k < |parts| ensures parts[k] == tail[k - 2] {}
  }

  lemma PrependConcat(text: string, block: string, tail: seq<string>)
    ensures Concat([text, block] + tail) == text + block + Concat(tail)
  {
    var parts := [text, block] + tail;
    assert parts[1..] == [block] + tail;
    assert parts[1..][1..] == tail;
    AppendAssoc(text, block, Concat(tail));
  }

  /**
   * The split is the only one of its shape: any prose/block alternation that
   * opens each block at the first fence and closes it at the next one, and
   * that concatenates to `s`, is the one the regular expression produces.
   */
  lemma {:induction false} SplitIsUnique(s: string, parts: seq<string>)
    requires SplitShape(parts) && Concat(parts) == s
    ensures parts == CodeBlockSplit(s)
    decreases |parts|
  {
    if |parts| == 1 {
      assert parts[1..] == [];
      assert s == parts[0];
    } else {
      var text, block, tail := parts[0], parts[1], parts[2..];
      assert parts == [text, block] + tail;
      DropShape(parts);
      PrependConcat(text, block, tail);
      SplitOfBlock(s, text, block, Concat(tail));
      SplitIsUnique(Concat(tail), tail);
    }
  }

  /** Text made of prose, a block opening at its first fence, and a rest splits there. */
  lemma SplitOfBlock(s: string, text: string, block: string, rest: string)
    requires s == text + block + rest
    requires OpensAtFirstFence(text, block) && IsCodeBlock(block)
    ensures CodeBlockSplit(s) == [text, block] + CodeBlockSplit(rest)
  {
    FirstFenceAt(text, block, rest);
    ClosingFenceAt(text, block, rest);
    var i, j := |text|, |block| - 6;
    assert HasCodeBlock(s);
    assert s[..i] == text && s[i..i + j + 6] == block && s[i + j + 6..] == rest;
  }

  /** Dropping the first prose piece and its block keeps the shape. */
  lemma DropShape(parts: seq<string>)
    requires SplitShape(parts) && |parts| > 1
    ensures SplitShape(parts[2..])
  {
    var tail := parts[2..];
    forall k | 0 <= k < |tail| ensures tail[k] == parts[k + 2] {}
  }

  /** A block that opens at the first fence of `text + block + rest` is found there. */
  lemma FirstFenceAt(text: string, block: string, rest: string)
    requires OpensAtFirstFence(text, block) && StartsWith(block, Fence)
    ensures IndexOf(text + block + rest, Fence) == |text|
  {
    var s := text + block + rest;
    var i := |text|;
    assert s[i..i + 3] == block[..3];
    assert s[..i + 2] == text + block[..2];
    forall k | 0 <= k < i ensures !OccursAt(s, Fence, k) {
      OccursInSlice(s, Fence, 0, i + 2, k);
    }
    IndexOfIsFirst(s, Fence, i);
  }

  /** The block's closing fence is the first fence after its opening one. */
  lemma ClosingFenceAt(text: string, block: string, rest: string)
    requires IsCodeBlock(block)
    ensures var s := text + block + rest;
      |text| + 3 <= |s| && IndexOf(s[|text| + 3..], Fence) == |block| - 6
  {
    var s := text + block + rest;
    var t := s[|text| + 3..];
    var j := |block| - 6;
    assert t[..|block| - 3] == block[3..];
    assert t[j..j + 3] == block[|block| - 3..];
    forall k | 0 <= k < j ensures !OccursAt(t, Fence, k) {
      assert t[k..k + 3] == block[k + 3..k + 6];
      assert !OccursAt(block, Fence, k + 3);
    }
    IndexOfIsFirst(t, Fence, j);
  }

  /** The pieces around the first block of `s`. */
  lemma BlockFacts(s: string, i: int, j: int)
    requires HasCodeBlock(s)
    requires i == IndexOf(s, Fence) && j == IndexOf(s[i + 3..], Fence)
    ensures 0 <= i && 0 <= j && i + j + 6 <= |s|
    ensures !Contains(s[..i], Fence)
    ensures IsCodeBlock(s[i..i + j + 6])
    ensures OpensAtFirstFence(s[..i], s[i..i + j + 6])
  {
    assert s[i + 3..] == s[i + 3..|s|];
    assert 0 <= j && i + j + 6 <= |s| by {
      OccursInSlice(s, Fence, i + 3, |s|, j);
    }
    BlockEnds(s, i, j);
    BlockInterior(s, i, j, s[i + 3..], s[i..i + j + 6]);
    TextBeforeBlock(s, i, i);
    TextBeforeBlock(s, i, i + 2);
    assert s[..i] + s[i..i + j + 6][..2] == s[..i + 2];
  }

  lemma BlockEnds(s: string, i: int, j: int)
    requires 0 <= i && 0 <= j && i + j + 6 <= |s|
    requires OccursAt(s, Fence, i) && OccursAt(s[i + 3..], Fence, j)
    ensures StartsWith(s[i..i + j + 6], Fence) && EndsWith(s[i..i + j + 6], Fence)
  {
    var block := s[i..i + j + 6];
    assert s[i + 3..] == s[i + 3..|s|];
    OccursInSlice(s, Fence, i + 3, |s|, j);
    assert block[..3] == s[i..i + 3] by {
      SliceOfSlice(s, i, i + j + 6, 0, 3);
    }
    assert block[j + 3..] == s[i + j + 3..i + j + 6] by {
      assert block[j + 3..] == block[j + 3..j + 6];
      SliceOfSlice(s, i, i + j + 6, j + 3, 3);
    }
  }

  lemma BlockInterior(s: string, i: int, j: int, t: string, block: string)
    requires 0 <= i && 0 <= j && i + j + 6 <= |s|
    requires t == s[i + 3..] && block == s[i..i + j + 6]
    requires forall k :: 0 <= k < j ==> !OccursAt(t, Fence, k)
    ensures forall k :: 3 <= k < j + 3 ==> !OccursAt(block, Fence, k)
  {
    assert t == s[i + 3..|s|];
    forall k | 3 <= k < j + 3 ensures !OccursAt(block, Fence, k) {
      OccursInSlice(s, Fence, i, i + j + 6, k);
      OccursInSlice(s, Fence, i + 3, |s|, k - 3);
      assert !OccursAt(t, Fence, k - 3);
    }
  }

  /** Text reaching at most two characters into the first fence holds no fence. */
  lemma TextBeforeBlock(s: string, i: int, n: int)
    requires 0 <= i <= n <= i + 2 && n <= |s|
    requires forall k :: 0 <= k < i ==> !OccursAt(s, Fence, k)
    ensures !Contains(s[..n], Fence)
  {
    forall k | 0 <= k <= n ensures !OccursAt(s[..n], Fence, k) {
      assert s[..n] == s[0..n];
      OccursInSlice(s, Fence, 0, n, k);
    }
  }

  /** The filter's test on one part: kept unless `part.trim()` is empty. */
  function Kept(p: string): (r: seq<string>)
    ensures r == if AllWhitespace(p) then [] else [p]
  {
    if Trim(p) != "" then [p] else []
  }

  /** `parts.filter(part => part.trim() !== "")`. */
  function FilterNonBlank(parts: seq<string>): (r: seq<string>)
    ensures |r| <= |parts|
  {
    if parts == [] then [] else Kept(parts[0]) + FilterNonBlank(parts[1..])
  }

  /** The filter keeps exactly the parts that are not blank. */
  lemma {:induction false} FilterNonBlankMembers(parts: seq<string>, p: string)
    ensures p in FilterNonBlank(parts) <==> p in parts && !AllWhitespace(p)
  {
    if parts != [] {
      FilterNonBlankMembers(parts[1..], p);
      FilterStep(parts, parts[0], parts[1..]);
      assert parts == [parts[0]] + parts[1..];
    }
  }

  lemma {:induction false} FilterNonBlankAppend(a: seq<string>, b: seq<string>)
    ensures FilterNonBlank(a + b) == FilterNonBlank(a) + FilterNonBlank(b)
  {
    if a != [] {
      ConsAppend(a, b);
      FilterNonBlankAppend(a[1..], b);
      FilterStep(a + b, a[0], a[1..] + b);
      FilterStep(a, a[0], a[1..]);
      AppendAssoc(Kept(a[0]), FilterNonBlank(a[1..]), FilterNonBlank(b));
    } else {
      assert a + b == b;
    }
  }

  /** One step of the filter, for a list given as its head and tail. */
  lemma FilterStep(parts: seq<string>, head: string, tail: seq<string>)
    requires parts == [head] + tail
    ensures FilterNonBlank(parts) == Kept(head) + FilterNonBlank(tail)
  {
    assert parts[1..] == tail;
  }

  /** The characters of `s` that are not white space. */
  function NonSpace(s: string): string
  {
    if s == [] then "" else (if IsWhitespace(s[0]) then "" else [s[0]]) + NonSpace(s[1..])
  }

  lemma {:induction false} NonSpaceAppend(a: string, b: string)
    ensures NonSpace(a + b) == NonSpace(a) + NonSpace(b)
  {
    if a != [] {
      NonSpaceAppend(a[1..], b);
      assert (a + b)[1..] == a[1..] + b;
    } else {
      assert a + b == b;
    }
  }

  lemma {:induction false} NonSpaceOfBlank(s: string)
    requires AllWhitespace(s)
    ensures NonSpace(s) == ""
  {
    if s != [] {
      NonSpaceOfBlank(s[1..]);
    }
  }

  /** Dropping the blank pieces loses no visible character. */
  lemma {:induction false} FilterKeepsText(parts: seq<string>)
    ensures NonSpace(Concat(FilterNonBlank(parts))) == NonSpace(Concat(parts))
  {
    if parts != [] {
      var head, tail := parts[0], parts[1..];
      var restKept := FilterNonBlank(tail);
      FilterKeepsText(tail);
      FilterStep(parts, head, tail);
      var kept := Kept(head);
      ConcatAppend(kept, restKept);
      NonSpaceAppend(Concat(kept), Concat(restKept));
      NonSpaceAppend(head, Concat(tail));
      KeptNonSpace(head);
      calc {
        NonSpace(Concat(FilterNonBlank(parts)));
        NonSpace(Concat(kept + restKept));
        NonSpace(Concat(kept) + Concat(restKept));
        NonSpace(Concat(kept)) + NonSpace(Concat(restKept));
        NonSpace(head) + NonSpace(Concat(tail));
        NonSpace(head + Concat(tail));
        NonSpace(Concat(parts));
      }
    }
  }

  lemma KeptNonSpace(p: string)
    ensures NonSpace(Concat(Kept(p))) == NonSpace(p)
  {
    if AllWhitespace(p) {
      NonSpaceOfBlank(p);
      assert Kept(p) == [];
      assert Concat([]) == "";
      assert NonSpace("") == "";
    } else {
      assert Kept(p) == [p];
      assert [p][1..] == [];
      assert Concat([p]) == p + Concat([]);
      assert p + "" == p;
    }
  }

  /**
   * `splitStringWithCodeBlocks(message)`: the non-blank prose and code
   * pieces of a user or assistant message, in order.
   */
  function SplitStringWithCodeBlocks(m: Message): (r: seq<string>)
    ensures GetContentStringFromMessage(m) in {None, Some("")} ==> r == []
    ensures forall i :: 0 <= i < |r| ==> !AllWhitespace(r[i])
    ensures GetContentStringFromMessage(m).Some? ==>
      NonSpace(Concat(r)) == NonSpace(GetContentStringFromMessage(m).value)
    ensures GetContentStringFromMessage(m).Some? && GetContentStringFromMessage(m).value != "" ==>
      exists parts :: SplitShape(parts) && Concat(parts) == GetContentStringFromMessage(m).value
                      && r == FilterNonBlank(parts)
    ensures GetContentStringFromMessage(m).Some? && GetContentStringFromMessage(m).value != "" ==>
      forall parts :: SplitShape(parts) && Concat(parts) == GetContentStringFromMessage(m).value ==>
        r == FilterNonBlank(parts)
  {
    match GetContentStringFromMessage(m)
    case None => []
    case Some(content) =>
      if content == "" then []
      else
        var parts := CodeBlockSplit(content);
        FilterKeepsText(parts);
        FilterNonBlankHasNoBlank(parts);
        forall other | SplitShape(other) && Concat(other) == content ensures other == parts {
          SplitIsUnique(content, other);
        }
        FilterNonBlank(parts)
  }

  /** No part the filter keeps is blank. */
  lemma FilterNonBlankHasNoBlank(parts: seq<string>)
    ensures forall i :: 0 <= i < |FilterNonBlank(parts)| ==> !AllWhitespace(FilterNonBlank(parts)[i])
  {
    var r := FilterNonBlank(parts);
    forall i | 0 <= i < |r| ensures !AllWhitespace(r[i]) {
      FilterNonBlankMembers(parts, r[i]);
    }
  }

  /** `parts.find(part => part.startsWith('```'))`. */
  function FindFenced(parts: seq<string>): (r: Option<string>)
    ensures r.None? <==> forall i :: 0 <= i < |parts| ==> !StartsWith(parts[i], Fence)
    ensures r.Some? ==> exists i :: 0 <= i < |parts| && parts[i] == r.value && StartsWith(parts[i], Fence)
                                && forall k :: 0 <= k < i ==> !StartsWith(parts[k], Fence)
  {
    if parts == [] then None
    else if StartsWith(parts[0], Fence) then
      assert parts[0] == parts[0];
      Some(parts[0])
    else
      var r := FindFenced(parts[1..]);
      if r.Some? then
        ghost var i :| 0 <= i < |parts[1..]| && parts[1..][i] == r.value && StartsWith(parts[1..][i], Fence)
                       && forall k :: 0 <= k < i ==> !StartsWith(parts[1..][k], Fence);
        assert parts[i + 1] == r.value;
        r
      else r
  }

  /** `getCodeBlockFromMessage(message)`. */
  function GetCodeBlockFromMessage(m: Message): (r: Option<string>)
    ensures r.Some? ==> StartsWith(r.value, Fence) && r.value in SplitStringWithCodeBlocks(m)
  {
    FindFenced(SplitStringWithCodeBlocks(m))
  }

  /** A message with a complete block yields its first block. */
  lemma FilterSingleton(p: string)
    ensures FilterNonBlank([p]) == if AllWhitespace(p) then [] else [p]
  {
    assert [p][1..] == [];
  }

  lemma FirstCodeBlock(m: Message)
    requires GetContentStringFromMessage(m).Some?
    requires HasCodeBlock(GetContentStringFromMessage(m).value)
    ensures GetCodeBlockFromMessage(m) == Some(CodeBlockSplit(GetContentStringFromMessage(m).value)[1])
  {
    var s := GetContentStringFromMessage(m).value;
    assert s != "";
    var parts := CodeBlockSplit(s);
    assert SplitStringWithCodeBlocks(m) == FilterNonBlank(parts);
    FirstBlockOfParts(parts);
  }

  /** In a split with a block, the first part that starts with a fence is that block. */
  lemma FirstBlockOfParts(parts: seq<string>)
    requires SplitShape(parts) && |parts| > 1
    ensures FindFenced(FilterNonBlank(parts)) == Some(parts[1])
  {
    ShapeHead(parts);
    FilterStep(parts, parts[0], parts[1..]);
    FilterStep(parts[1..], parts[1], parts[2..]);
    FindFencedAfterText(parts[0], parts[1], FilterNonBlank(parts[2..]));
  }

  /** The first two parts of a split with a block: text without a fence, then a block. */
  lemma ShapeHead(parts: seq<string>)
    requires SplitShape(parts) && |parts| > 1
    ensures !StartsWith(parts[0], Fence) && StartsWith(parts[1], Fence) && !AllWhitespace(parts[1])
    ensures Kept(parts[1]) == [parts[1]]
  {
    assert !Contains(parts[0], Fence);
    NotContainsNotStartsWith(parts[0], Fence);
    assert IsCodeBlock(parts[1]);
    assert parts[1][0] == Fence[0];
  }

  /** A part without a fence, kept or dropped, never hides the block after it. */
  lemma FindFencedAfterText(text: string, block: string, rest: seq<string>)
    requires !StartsWith(text, Fence) && StartsWith(block, Fence)
    ensures FindFenced(Kept(text) + ([block] + rest)) == Some(block)
  {
    var front := Kept(text);
    var r := front + ([block] + rest);
    assert r[|front|] == block;
    forall k | 0 <= k < |front| ensures !StartsWith(r[k], Fence) {
      assert r[k] == text;
    }
    FindFencedAt(r, |front|);
  }

  /** The first part starting with a fence is the one found. */
  lemma {:induction false} FindFencedAt(parts: seq<string>, i: nat)
    requires i < |parts| && StartsWith(parts[i], Fence)
    requires forall k :: 0 <= k < i ==> !StartsWith(parts[k], Fence)
    ensures FindFenced(parts) == Some(parts[i])
  {
    if i > 0 {
      FindFencedAt(parts[1..], i - 1);
    }
  }

  // ---------------------------------------------------------------------
  // Python code fences
  // ---------------------------------------------------------------------

  /**
   * `code.split('```python')[1].split('```')[0]`: the text after the first
   * "```python", cut at its first "```python" and then at the first "```"
   * of that piece. Since "```python" begins with "```", this stops at the
   * first fence after the opening one, unless that fence overlaps a
   * following "```python" (as in "````python"), which cuts first.
   */
  function FencedBody(code: string): (body: string)
    requires Contains(code, PythonBlockStart)
    ensures 0 <= IndexOf(code, PythonBlockStart) && IndexOf(code, PythonBlockStart) + 9 <= |code|
    ensures body == Before(Before(code[IndexOf(code, PythonBlockStart) + 9..], PythonBlockStart), Fence)
    ensures StartsWith(code[IndexOf(code, PythonBlockStart) + 9..], body)
    ensures !Contains(body, Fence)
    ensures var rest := code[IndexOf(code, PythonBlockStart) + 9..];
      |body| < |rest| ==> StartsWith(rest[|body|..], Fence)
  {
    var i := IndexOf(code, PythonBlockStart);
    SplitStep(code, PythonBlockStart);
    var piece := Split(code, PythonBlockStart)[1];
    assert piece == Split(code[i + 9..], PythonBlockStart)[0];
    var body := Split(piece, Fence)[0];
    BodyStopsAtFence(code[i + 9..], piece, body);
    SplitFacts(code[i + 9..], PythonBlockStart);
    SplitFacts(piece, Fence);
    body
  }

  /** The first piece at "```" of the first piece at "```python" ends at the first "```". */
  lemma BodyStopsAtFence(rest: string, piece: string, body: string)
    requires piece == Split(rest, PythonBlockStart)[0] && body == Split(piece, Fence)[0]
    ensures StartsWith(rest, body) && !Contains(body, Fence)
    ensures |body| < |rest| ==> StartsWith(rest[|body|..], Fence)
  {
    SplitFirst(rest, PythonBlockStart);
    SplitFirst(piece, Fence);
    StartsWithTrans(rest, piece, body);
    FirstPieceStops(rest, piece, body, PythonBlockStart, Fence);
    if |body| < |rest| && StartsWith(rest[|body|..], PythonBlockStart) {
      assert StartsWith(PythonBlockStart, Fence);
      StartsWithTrans(rest[|body|..], PythonBlockStart, Fence);
    }
  }

  /** The first piece at "\n```" of the first piece at "```python\n" ends at the first of the two. */
  lemma BodyStopsAtClosing(rest: string, piece: string, body: string)
    requires piece == Split(rest, PythonBlockStartWithNewLine)[0] && body == Split(piece, PythonBlockEndWithNewLine)[0]
    ensures StartsWith(rest, body) && !Contains(body, PythonBlockEndWithNewLine)
    ensures |body| < |rest| ==>
      StartsWith(rest[|body|..], PythonBlockEndWithNewLine) || StartsWith(rest[|body|..], PythonBlockStartWithNewLine)
  {
    SplitFirst(rest, PythonBlockStartWithNewLine);
    SplitFirst(piece, PythonBlockEndWithNewLine);
    StartsWithTrans(rest, piece, body);
    FirstPieceStops(rest, piece, body, PythonBlockStartWithNewLine, PythonBlockEndWithNewLine);
  }

  lemma StartsWithTrans(a: string, b: string, c: string)
    requires StartsWith(a, b) && StartsWith(b, c)
    ensures StartsWith(a, c)
  {
    assert a[..|c|] == a[..|b|][..|c|];
  }

  /**
   * `addMarkdownCodeFormatting(code, trim)`: the code (or the body of its
   * first python fence), trimmed on request, inside a python fence, with
   * one space before the closing line.
   */
  function AddMarkdownCodeFormatting(code: string, trim: bool): (r: string)
    ensures !Contains(code, PythonBlockStart) ==>
      r == PythonBlockStartWithNewLine + (if trim then Trim(code) else code) + " " + PythonBlockEndWithNewLine
    ensures Contains(code, PythonBlockStart) ==>
      r == PythonBlockStartWithNewLine + (if trim then Trim(FencedBody(code)) else FencedBody(code)) + " " + PythonBlockEndWithNewLine
  {
    var codeWithoutBackticks := if |Split(code, PythonBlockStart)| > 1 then FencedBody(code) else code;
    var body := if trim then Trim(codeWithoutBackticks) else codeWithoutBackticks;
    PythonBlockStartWithNewLine + body + " " + PythonBlockEndWithNewLine
  }

  /**
   * `removeMarkdownCodeFormatting(code)`: the text after the first
   * "```python\n", cut at its next "```python\n" and then at the first
   * "\n```" of that piece. The first cut comes first, so in "a\n```python\nb"
   * the result is "a\n": the "\n```" there is broken up by the earlier cut.
   * `None` is the failure of the source when "```python" occurs but is never
   * followed by a newline.
   */
  function RemoveMarkdownCodeFormatting(code: string): (r: Option<string>)
    ensures !Contains(code, PythonBlockStart) ==> r == Some(code)
    ensures r.None? <==> Contains(code, PythonBlockStart) && !Contains(code, PythonBlockStartWithNewLine)
    ensures Contains(code, PythonBlockStartWithNewLine) ==>
      && r.Some?
      && 0 <= IndexOf(code, PythonBlockStartWithNewLine) && IndexOf(code, PythonBlockStartWithNewLine) + 10 <= |code|
      && StartsWith(code[IndexOf(code, PythonBlockStartWithNewLine) + 10..], r.value)
      && !Contains(r.value, PythonBlockEndWithNewLine)
      && var rest := code[IndexOf(code, PythonBlockStartWithNewLine) + 10..];
         |r.value| < |rest| ==>
           StartsWith(rest[|r.value|..], PythonBlockEndWithNewLine) || StartsWith(rest[|r.value|..], PythonBlockStartWithNewLine)
    ensures Contains(code, PythonBlockStartWithNewLine) ==>
      && 0 <= IndexOf(code, PythonBlockStartWithNewLine) && IndexOf(code, PythonBlockStartWithNewLine) + 10 <= |code|
      && r == Some(Before(Before(code[IndexOf(code, PythonBlockStartWithNewLine) + 10..], PythonBlockStartWithNewLine), PythonBlockEndWithNewLine))
  {
    ContainsPrefixOf(code, PythonBlockStart, "\n");
    assert PythonBlockStart + "\n" == PythonBlockStartWithNewLine;
    if |Split(code, PythonBlockStart)| > 1 then
      var parts := Split(code, PythonBlockStartWithNewLine);
      if |parts| > 1 then
        var i := IndexOf(code, PythonBlockStartWithNewLine);
        SplitStep(code, PythonBlockStartWithNewLine);
        assert parts[1] == Split(code[i + 10..], PythonBlockStartWithNewLine)[0];
        var body := Split(parts[1], PythonBlockEndWithNewLine)[0];
        BodyStopsAtClosing(code[i + 10..], parts[1], body);
        SplitFacts(code[i + 10..], PythonBlockStartWithNewLine);
        SplitFacts(parts[1], PythonBlockEndWithNewLine);
        Some(body)
      else None
    else Some(code)
  }

  /** With overlapping backtick runs the body still ends at the first closing fence. */
  lemma FencedBodyOverlap(code: string)
    requires code == PythonBlockStart + "x````"
    ensures Contains(code, PythonBlockStart) && FencedBody(code) == "x"
  {
    assert OccursAt(code, PythonBlockStart, 0);
    IndexOfIsFirst(code, PythonBlockStart, 0);
    var rest := code[9..];
    assert rest == "x````";
    assert !Contains(rest, PythonBlockStart);
    assert rest[0..3][0] == 'x' && rest[1..4] == Fence;
    assert OccursAt(rest, Fence, 1) && !OccursAt(rest, Fence, 0);
    IndexOfIsFirst(rest, Fence, 1);
  }

  /**
   * A second opening line cuts first, even where a closing line overlaps it:
   * for "```python\na\n```python\nb" the result is "a\n", not "a".
   */
  lemma RemoveStopsAtSecondOpening(code: string)
    requires code == PythonBlockStartWithNewLine + "a\n" + PythonBlockStartWithNewLine + "b"
    ensures RemoveMarkdownCodeFormatting(code) == Some("a\n")
  {
    var rest := "a\n" + PythonBlockStartWithNewLine + "b";
    OpeningThen(code, rest);
    SecondOpeningAt(rest);
    assert !Contains("a\n", PythonBlockEndWithNewLine);
  }

  /** The text after the opening line is cut at its second opening line, after "a\n". */
  lemma SecondOpeningAt(rest: string)
    requires rest == "a\n" + PythonBlockStartWithNewLine + "b"
    ensures Before(rest, PythonBlockStartWithNewLine) == "a\n"
  {
    assert rest[0..10][0] == 'a' && rest[1..11][0] == '\n' && rest[2..12] == PythonBlockStartWithNewLine;
    IndexOfIsFirst(rest, PythonBlockStartWithNewLine, 2);
    assert rest[..2] == "a\n";
  }

  /** Text that opens with "```python\n" has its first opening line at 0. */
  lemma OpeningThen(code: string, rest: string)
    requires code == PythonBlockStartWithNewLine + rest
    ensures Contains(code, PythonBlockStart) && Contains(code, PythonBlockStartWithNewLine)
    ensures IndexOf(code, PythonBlockStartWithNewLine) == 0 && code[10..] == rest
  {
    assert OccursAt(code, PythonBlockStartWithNewLine, 0);
    assert code[..9] == PythonBlockStart;
    assert OccursAt(code, PythonBlockStart, 0);
    IndexOfIsFirst(code, PythonBlockStartWithNewLine, 0);
  }

  /** Wrapping code free of fences and then unwrapping it gives it back, with the added space. */
  lemma RemoveAfterAdd(c: string)
    requires !Contains(c, PythonBlockStart) && !Contains(c, PythonBlockEndWithNewLine)
    ensures RemoveMarkdownCodeFormatting(AddMarkdownCodeFormatting(c, false)) == Some(c + " ")
  {
    var tail := c + [' '] + PythonBlockEndWithNewLine;
    var s := PythonBlockStartWithNewLine + tail;
    assert AddMarkdownCodeFormatting(c, false) == s;
    assert Split(s, PythonBlockStartWithNewLine)[1] == tail by {
      assert OccursAt(s, PythonBlockStartWithNewLine, 0);
      IndexOfIsFirst(s, PythonBlockStartWithNewLine, 0);
      SplitStep(s, PythonBlockStartWithNewLine);
      assert s[10..] == tail;
      TailHasNoOpening(c);
    }
    assert Split(tail, PythonBlockEndWithNewLine)[0] == c + " " by {
      IndexAfterSeparatorChar(c, ' ', PythonBlockEndWithNewLine, "");
      assert PythonBlockEndWithNewLine + "" == PythonBlockEndWithNewLine;
      assert tail[..|c| + 1] == c + " ";
    }
    assert Contains(s, PythonBlockStart) && Contains(s, PythonBlockStartWithNewLine) by {
      assert OccursAt(s, PythonBlockStart, 0);
      assert OccursAt(s, PythonBlockStartWithNewLine, 0);
    }
  }

  /** What follows the opening line of wrapped fence-free code holds no second opening line:
      none inside the code, none across the added space, and the closing line is too short. */
  lemma TailHasNoOpening(c: string)
    requires !Contains(c, PythonBlockStart)
    ensures !Contains(c + [' '] + PythonBlockEndWithNewLine, PythonBlockStartWithNewLine)
  {
    var tail := c + [' '] + PythonBlockEndWithNewLine;
    ContainsPrefixOf(c, PythonBlockStart, "\n");
    assert PythonBlockStart + "\n" == PythonBlockStartWithNewLine;
    NoStraddle(c, ' ', PythonBlockEndWithNewLine, PythonBlockStartWithNewLine);
    forall k | |c| < k <= |tail| ensures !OccursAt(tail, PythonBlockStartWithNewLine, k) {
    }
  }
}
