/** Splitting a file into the line windows that are embedded and stored as vectors
    (chunking.go, and splitContentLines of handlers_retrieval.go). */
module Chunking {
  import opened Text

  // ----- lines -----

  /** `strings.Split(content, "\n")` */
  function SplitNewlines(content: string): (parts: seq<string>)
    ensures parts != []
    decreases |content|
  {
    var k := FindByte(content, '\n');
    if k == |content| then [content] else [content[..k]] + SplitNewlines(content[k + 1..])
  }

  /** `strings.TrimSuffix(line, "\r")` */
  function TrimReturn(line: string): string {
    if line != [] && line[|line| - 1] == '\r' then line[..|line| - 1] else line
  }

  function TrimReturns(lines: seq<string>): seq<string> {
    seq(|lines|, i requires 0 <= i < |lines| => TrimReturn(lines[i]))
  }

  predicate EndsWithNewline(content: string) {
    content != [] && content[|content| - 1] == '\n'
  }

  function Lines(content: string): seq<string> {
    if content == [] then []
    else
      var parts := SplitNewlines(content);
      TrimReturns(if EndsWithNewline(content) then parts[..|parts| - 1] else parts)
  }

  /** `splitContentLines` */
  method SplitContentLines(content: string) returns (lines: seq<string>)
    ensures lines == Lines(content)
  {
    if content == "" {
      return [];
    }
    lines := SplitNewlines(content);
    if EndsWithNewline(content) && |lines| > 0 {
      lines := lines[..|lines| - 1];
    }
    ghost var raw := lines;
    for i := 0 to |lines|
      invariant |lines| == |raw|
      invariant forall k :: 0 <= k < |raw| ==> lines[k] == if k < i then TrimReturn(raw[k]) else raw[k]
    {
      lines := lines[i := TrimReturn(lines[i])];
    }
    assert lines == TrimReturns(raw);
  }

  /** `strings.Join(lines, "\n")` */
  function Join(lines: seq<string>): string {
    if lines == [] then [] else if |lines| == 1 then lines[0] else lines[0] + "\n" + Join(lines[1..])
  }

  lemma {:induction false} JoinSplits(content: string)
    ensures Join(SplitNewlines(content)) == content
    decreases |content|
  {
    var k := FindByte(content, '\n');
    if k < |content| {
      var rest := content[k + 1..];
      JoinSplits(rest);
      assert SplitNewlines(content)[1..] == SplitNewlines(rest);
      assert content == content[..k] + "\n" + rest;
    }
  }

  /** A final newline leaves an empty last part behind. */
  lemma {:induction false} FinalNewline(content: string)
    requires EndsWithNewline(content)
    ensures var parts := SplitNewlines(content); |parts| >= 2 && parts[|parts| - 1] == []
    decreases |content|
  {
    hide FindByte;
    var k := FindByte(content, '\n');
    var rest := content[k + 1..];
    assert SplitNewlines(content) == [content[..k]] + SplitNewlines(rest);
    if rest == [] {
      assert SplitNewlines(rest) == [rest];
    } else {
      assert EndsWithNewline(rest);
      FinalNewline(rest);
    }
  }

  lemma {:induction false} JoinAppend(lines: seq<string>, line: string)
    requires lines != []
    ensures Join(lines + [line]) == Join(lines) + "\n" + line
  {
    if |lines| == 1 {
      assert (lines + [line])[1..] == [line];
    } else {
      assert (lines + [line])[1..] == lines[1..] + [line];
      JoinAppend(lines[1..], line);
    }
  }

  lemma {:induction false} JoinConcat(a: seq<string>, b: seq<string>)
    requires a != [] && b != []
    ensures Join(a + b) == Join(a) + "\n" + Join(b)
  {
    if |a| == 1 {
      assert (a + b)[1..] == b;
    } else {
      assert (a + b)[1..] == a[1..] + b;
      JoinConcat(a[1..], b);
    }
  }

  lemma {:induction false} PartsComeFrom(content: string, i: nat)
    requires i < |SplitNewlines(content)|
    ensures forall c :: c in SplitNewlines(content)[i] ==> c in content
    decreases |content|
  {
    var k := FindByte(content, '\n');
    if k < |content| && i > 0 {
      PartsComeFrom(content[k + 1..], i - 1);
    }
  }

  lemma {:induction false} PartsHaveNoNewline(content: string, i: nat)
    requires i < |SplitNewlines(content)|
    ensures '\n' !in SplitNewlines(content)[i]
    decreases |content|
  {
    var k := FindByte(content, '\n');
    if k < |content| && i > 0 {
      PartsHaveNoNewline(content[k + 1..], i - 1);
    }
  }

  /** A line holds no newline. */
  lemma LinesHaveNoNewline(content: string, i: nat)
    requires i < |Lines(content)|
    ensures '\n' !in Lines(content)[i]
  {
    PartsHaveNoNewline(content, i);
    hide SplitNewlines;
  }

  lemma NothingToTrim(lines: seq<string>)
    requires forall i :: 0 <= i < |lines| ==> '\r' !in lines[i]
    ensures TrimReturns(lines) == lines
  {
    forall i | 0 <= i < |lines| ensures TrimReturn(lines[i]) == lines[i] {
      if lines[i] != [] { assert lines[i][|lines[i]| - 1] in lines[i]; }
    }
  }

  /** A text without carriage returns is its lines joined again, with its final newline. */
  lemma LinesRejoin(content: string)
    requires '\r' !in content
    ensures Join(Lines(content)) + (if EndsWithNewline(content) then "\n" else "") == content
  {
    hide Join, SplitNewlines, TrimReturns, FindByte;
    if content == [] {
      EmptyJoin();
    } else {
      var parts := SplitNewlines(content);
      JoinSplits(content);
      forall i | 0 <= i < |parts| { PartsComeFrom(content, i); }
      var kept := if EndsWithNewline(content) then parts[..|parts| - 1] else parts;
      NothingToTrim(kept);
      if EndsWithNewline(content) {
        FinalNewline(content);
        assert parts == kept + [[]];
        JoinAppend(kept, []);
      }
    }
  }

  lemma EmptyJoin()
    ensures Join([]) == ""
  {}

  /** The same text with every line ended by a carriage return and a newline. */
  function WithReturns(content: string): string
    decreases |content|
  {
    var k := FindByte(content, '\n');
    if k == |content| then content else content[..k] + "\r\n" + WithReturns(content[k + 1..])
  }

  lemma FirstPart(content: string)
    requires '\n' in content
    ensures var k, text := FindByte(content, '\n'), WithReturns(content);
      k < |content|
      && SplitNewlines(content) == [content[..k]] + SplitNewlines(content[k + 1..])
      && SplitNewlines(text) == [content[..k] + "\r"] + SplitNewlines(WithReturns(content[k + 1..]))
  {
    hide FindByte;
    var k, text := FindByte(content, '\n'), WithReturns(content);
    var rest := WithReturns(content[k + 1..]);
    assert text == content[..k] + "\r\n" + rest;
    FindByteAt(text, '\n', k + 1);
    assert text[..k + 1] == content[..k] + "\r" && text[k + 2..] == rest;
  }

  lemma NoNewline(content: string)
    requires '\n' !in content
    ensures SplitNewlines(content) == [content] && WithReturns(content) == content
  {}

  /** Every part but the last gains a carriage return. */
  ghost predicate Returned(parts: seq<string>, cr: seq<string>) {
    |cr| == |parts| > 0 && cr[|cr| - 1] == parts[|parts| - 1]
    && forall i :: 0 <= i < |parts| - 1 ==> cr[i] == parts[i] + "\r"
  }

  lemma {:induction false} ReturnsSplit(content: string)
    ensures Returned(SplitNewlines(content), SplitNewlines(WithReturns(content)))
    decreases |content|
  {
    hide FindByte, SplitNewlines;
    if '\n' in content {
      FirstPart(content);
      ReturnsSplit(content[FindByte(content, '\n') + 1..]);
    } else {
      NoNewline(content);
    }
  }

  lemma {:induction false} ReturnsEnd(content: string)
    ensures EndsWithNewline(WithReturns(content)) <==> EndsWithNewline(content)
    ensures content == [] <==> WithReturns(content) == []
    decreases |content|
  {
    hide FindByte, WithReturns;
    var k := FindByte(content, '\n');
    ReturnsStep(content);
    if k < |content| {
      ReturnsEnd(content[k + 1..]);
    }
  }

  lemma ReturnsStep(content: string)
    ensures var k := FindByte(content, '\n');
      WithReturns(content) == if k == |content| then content else content[..k] + "\r\n" + WithReturns(content[k + 1..])
  {
    hide FindByte;
  }

  /** A file with CRLF line endings has the same lines, and so the same chunks, as with LF. */
  lemma CrlfParity(content: string)
    requires '\r' !in content
    ensures Lines(WithReturns(content)) == Lines(content)
  {
    hide SplitNewlines, WithReturns;
    ReturnsSplit(content);
    ReturnsEnd(content);
    var parts, cr := SplitNewlines(content), SplitNewlines(WithReturns(content));
    forall i | 0 <= i < |parts| ensures TrimReturn(cr[i]) == TrimReturn(parts[i]) {
      PartsComeFrom(content, i);
      if parts[i] != [] { assert parts[i][|parts[i]| - 1] in parts[i]; }
      if i < |parts| - 1 { assert cr[i][..|cr[i]| - 1] == parts[i]; }
    }
    var n := if EndsWithNewline(content) then |parts| - 1 else |parts|;
    assert TrimReturns(cr[..n]) == TrimReturns(parts[..n]);
    assert cr[..|parts|] == cr && parts[..|parts|] == parts;
  }

  // ----- windows -----

  /** A window of one line is always allowed; a longer one must respect both limits. */
  ghost predicate ValidWindow(lines: seq<string>, a: int, b: int, maxLines: int, maxChars: int) {
    0 <= a < b <= |lines| && (b == a + 1 || (b - a <= maxLines && |Join(lines[a..b])| <= maxChars))
  }

  /** Dropping lines from either end does not make a window longer. */
  lemma {:induction false} SubwindowShorter(lines: seq<string>, a: int, b: int, c: int, d: int)
    requires 0 <= a <= c < d <= b <= |lines|
    ensures |Join(lines[c..d])| <= |Join(lines[a..b])|
    decreases c - a + b - d
  {
    if d < b {
      assert lines[a..b] == lines[a..b - 1] + [lines[b - 1]];
      JoinAppend(lines[a..b - 1], lines[b - 1]);
      SubwindowShorter(lines, a, b - 1, c, d);
    } else if a < c {
      assert lines[a..b][1..] == lines[a + 1..b];
      SubwindowShorter(lines, a + 1, b, c, d);
    }
  }

  lemma SubwindowValid(lines: seq<string>, a: int, b: int, c: int, d: int, maxLines: int, maxChars: int)
    requires ValidWindow(lines, a, b, maxLines, maxChars) && a <= c < d <= b
    ensures ValidWindow(lines, c, d, maxLines, maxChars)
  {
    SubwindowShorter(lines, a, b, c, d);
  }

  /** The longest valid window from `a`, searched from `e` on. */
  ghost function Longest(lines: seq<string>, a: nat, e: nat, maxLines: int, maxChars: int): (end: nat)
    requires ValidWindow(lines, a, e, maxLines, maxChars)
    ensures e <= end && ValidWindow(lines, a, end, maxLines, maxChars)
    decreases |lines| - e
  {
    if ValidWindow(lines, a, e + 1, maxLines, maxChars) then Longest(lines, a, e + 1, maxLines, maxChars) else e
  }

  lemma {:induction false} LongestIsLongest(lines: seq<string>, a: nat, e: nat, b: nat, maxLines: int, maxChars: int)
    requires ValidWindow(lines, a, e, maxLines, maxChars) && ValidWindow(lines, a, b, maxLines, maxChars)
    ensures b <= Longest(lines, a, e, maxLines, maxChars)
    decreases |lines| - e
  {
    if e < b {
      SubwindowValid(lines, a, b, a, e + 1, maxLines, maxChars);
      LongestIsLongest(lines, a, e + 1, b, maxLines, maxChars);
    }
  }

  lemma WindowLimits(lines: seq<string>, a: nat, end: nat, maxLines: int, maxChars: int)
    requires forall b :: end < b ==> !ValidWindow(lines, a, b, maxLines, maxChars)
    ensures forall b :: a < end < b <= |lines| ==> b - a > maxLines || |Join(lines[a..b])| > maxChars
  {
    forall b | a < end < b <= |lines| ensures b - a > maxLines || |Join(lines[a..b])| > maxChars {
      assert !ValidWindow(lines, a, b, maxLines, maxChars);
    }
  }

  /** `endChunkWindow`: the end of the longest valid window that starts at `start`. */
  method EndChunkWindow(lines: seq<string>, start: nat, maxLines: int, maxChars: int) returns (end: nat)
    ensures start < |lines| ==> ValidWindow(lines, start, end, maxLines, maxChars)
    ensures start >= |lines| ==> end == start + 1
    ensures forall b :: end < b ==> !ValidWindow(lines, start, b, maxLines, maxChars)
    ensures start < |lines| ==>
              start < end <= |lines| && (end == start + 1 || (end - start <= maxLines && |Join(lines[start..end])| <= maxChars))
    ensures forall b :: start < end < b <= |lines| ==> b - start > maxLines || |Join(lines[start..b])| > maxChars
  {
    end := start;
    var currentCharacters := 0;
    while end < |lines|
      invariant start <= end && (end <= |lines| || end == start)
      invariant end <= |lines| ==> currentCharacters == |Join(lines[start..end])|
      invariant end > start ==> ValidWindow(lines, start, end, maxLines, maxChars)
      invariant end > start ==> end - start < maxLines && currentCharacters < maxChars
    {
      var nextCharacters := currentCharacters + |lines[end]|;
      if end > start {
        nextCharacters := nextCharacters + 1;
        JoinAppend(lines[start..end], lines[end]);
      }
      assert lines[start..end + 1] == lines[start..end] + [lines[end]];
      var nextLineCount := end - start + 1;
      if end > start && (nextLineCount > maxLines || nextCharacters > maxChars) {
        assert !ValidWindow(lines, start, end + 1, maxLines, maxChars);
        break;
      }
      currentCharacters := nextCharacters;
      end := end + 1;
      if nextLineCount >= maxLines || currentCharacters >= maxChars {
        if end < |lines| {
          assert lines[start..end + 1] == lines[start..end] + [lines[end]];
          JoinAppend(lines[start..end], lines[end]);
          assert !ValidWindow(lines, start, end + 1, maxLines, maxChars);
        }
        break;
      }
    }
    forall b | end < b ensures !ValidWindow(lines, start, b, maxLines, maxChars) {
      if ValidWindow(lines, start, b, maxLines, maxChars) {
        SubwindowValid(lines, start, b, start, end + 1, maxLines, maxChars);
      }
    }
    WindowLimits(lines, start, end, maxLines, maxChars);
    if end <= start {
      return start + 1;
    }
  }

  // ----- tilings -----

  /** `ends` cut the lines from `a` to the end of the file into valid windows, in order,
      without gap or overlap. */
  ghost predicate Tiles(lines: seq<string>, a: int, ends: seq<nat>, maxLines: int, maxChars: int)
    decreases ends
  {
    if ends == [] then a == |lines|
    else ValidWindow(lines, a, ends[0], maxLines, maxChars) && Tiles(lines, ends[0], ends[1..], maxLines, maxChars)
  }

  ghost function GreedyEnds(lines: seq<string>, a: nat, maxLines: int, maxChars: int): seq<nat>
    requires a <= |lines|
    decreases |lines| - a
  {
    if a == |lines| then []
    else
      var end := Longest(lines, a, a + 1, maxLines, maxChars);
      [end] + GreedyEnds(lines, end, maxLines, maxChars)
  }

  /** The first of the greedy windows: one line, or as many as both limits allow. */
  lemma GreedyWindow(lines: seq<string>, a: nat, maxLines: int, maxChars: int)
    requires a < |lines|
    ensures var ends := GreedyEnds(lines, a, maxLines, maxChars);
      ends != [] && a < ends[0] <= |lines| && ends[1..] == GreedyEnds(lines, ends[0], maxLines, maxChars)
      && (ends[0] == a + 1 || (ends[0] - a <= maxLines && |Join(lines[a..ends[0]])| <= maxChars))
      && forall b :: ends[0] < b <= |lines| ==> b - a > maxLines || |Join(lines[a..b])| > maxChars
  {
    var end := Longest(lines, a, a + 1, maxLines, maxChars);
    forall b | end < b <= |lines| ensures b - a > maxLines || |Join(lines[a..b])| > maxChars {
      if ValidWindow(lines, a, b, maxLines, maxChars) { LongestIsLongest(lines, a, a + 1, b, maxLines, maxChars); }
    }
    hide Longest;
  }

  lemma {:induction false} GreedyTiles(lines: seq<string>, a: nat, maxLines: int, maxChars: int)
    requires a <= |lines|
    ensures Tiles(lines, a, GreedyEnds(lines, a, maxLines, maxChars), maxLines, maxChars)
    decreases |lines| - a
  {
    if a < |lines| {
      GreedyTiles(lines, Longest(lines, a, a + 1, maxLines, maxChars), maxLines, maxChars);
    }
  }

  /** Greedy windows stay ahead of any other tiling, also of one that started behind. */
  lemma {:induction false} GreedyStaysAhead(lines: seq<string>, greedy: nat, other: nat, ends: seq<nat>,
                                            maxLines: int, maxChars: int)
    requires other <= greedy <= |lines| && Tiles(lines, other, ends, maxLines, maxChars)
    ensures |GreedyEnds(lines, greedy, maxLines, maxChars)| <= |ends|
    decreases |ends|
  {
    if greedy < |lines| {
      var b := ends[0];
      if b <= greedy {
        GreedyStaysAhead(lines, greedy, b, ends[1..], maxLines, maxChars);
      } else {
        SubwindowValid(lines, other, b, greedy, b, maxLines, maxChars);
        LongestIsLongest(lines, greedy, greedy + 1, b, maxLines, maxChars);
        var end := Longest(lines, greedy, greedy + 1, maxLines, maxChars);
        GreedyStaysAhead(lines, end, b, ends[1..], maxLines, maxChars);
      }
    }
  }

  /** No tiling of a file into valid windows has fewer windows than the greedy one. */
  lemma GreedyIsMinimal(lines: seq<string>, ends: seq<nat>, maxLines: int, maxChars: int)
    requires Tiles(lines, 0, ends, maxLines, maxChars)
    ensures |GreedyEnds(lines, 0, maxLines, maxChars)| <= |ends|
  {
    GreedyStaysAhead(lines, 0, 0, ends, maxLines, maxChars);
  }

  /** The window texts joined with newlines are the lines joined with newlines. */
  lemma {:induction false} WindowsRejoin(lines: seq<string>, a: nat, ends: seq<nat>, maxLines: int, maxChars: int)
    requires Tiles(lines, a, ends, maxLines, maxChars) && a <= |lines|
    ensures Join(WindowTexts(lines, a, ends)) == Join(lines[a..])
    decreases |ends|
  {
    if ends == [] {
      assert lines[a..] == [];
    } else {
      var b := ends[0];
      WindowsRejoin(lines, b, ends[1..], maxLines, maxChars);
      assert WindowTexts(lines, a, ends) == [Join(lines[a..b])] + WindowTexts(lines, b, ends[1..]);
      assert lines[a..] == lines[a..b] + lines[b..];
      if ends[1..] == [] {
        assert lines[b..] == [] && lines[a..] == lines[a..b];
        assert WindowTexts(lines, b, ends[1..]) == [];
      } else {
        assert b < |lines|;
        JoinConcat(lines[a..b], lines[b..]);
        assert (WindowTexts(lines, a, ends))[1..] == WindowTexts(lines, b, ends[1..]);
      }
    }
  }

  ghost function WindowTexts(lines: seq<string>, a: int, ends: seq<nat>): seq<string>
    decreases ends
  {
    if ends == [] || !(0 <= a < ends[0] <= |lines|) then []
    else [Join(lines[a..ends[0]])] + WindowTexts(lines, ends[0], ends[1..])
  }

  // ----- chunks -----

  /** The identity of a chunk. The program hashes these five values; the hash is taken to
      be injective, so the values themselves stand for it. */
  datatype ChunkId = ChunkId(repo: string, path: string, startLine: nat, endLine: nat, text: string)

  const DEFAULT_MAX_LINES := 80
  const DEFAULT_MAX_CHARACTERS := 3000

  /** The chunks of the windows from `a` on: one for every window that is not blank. */
  ghost function WindowChunks(repo: string, path: string, lines: seq<string>, a: int, ends: seq<nat>): seq<ChunkId>
    decreases ends
  {
    if ends == [] || !(0 <= a < ends[0] <= |lines|) then []
    else
      var text := Join(lines[a..ends[0]]);
      (if TrimSpace(text) != "" then [ChunkId(repo, path, a + 1, ends[0], text)] else [])
      + WindowChunks(repo, path, lines, ends[0], ends[1..])
  }

  function LimitOr(limit: int, default: int): int {
    if limit <= 0 then default else limit
  }

  ghost function ChunksOf(repo: string, path: string, content: string, maxLines: int, maxChars: int): seq<ChunkId> {
    var lines := Lines(content);
    WindowChunks(repo, path, lines, 0,
                 GreedyEnds(lines, 0, LimitOr(maxLines, DEFAULT_MAX_LINES), LimitOr(maxChars, DEFAULT_MAX_CHARACTERS)))
  }

  /** The window loop of `buildDeterministicChunkMetadataWithLimits`, for one file. */
  method ChunkFile(repo: string, path: string, content: string, maxChunkLines: int, maxChunkCharacters: int)
    returns (chunks: seq<ChunkId>)
    ensures chunks == ChunksOf(repo, path, content, maxChunkLines, maxChunkCharacters)
  {
    hide TrimSpace, Join, Lines;
    var maxLines := LimitOr(maxChunkLines, DEFAULT_MAX_LINES);
    var maxChars := LimitOr(maxChunkCharacters, DEFAULT_MAX_CHARACTERS);
    chunks := [];
    var lines := SplitContentLines(content);
    var start := 0;
    ghost var all := ChunksOf(repo, path, content, maxChunkLines, maxChunkCharacters);
    while start < |lines|
      invariant start <= |lines|
      invariant chunks + WindowChunks(repo, path, lines, start, GreedyEnds(lines, start, maxLines, maxChars)) == all
    {
      var end := EndChunkWindow(lines, start, maxLines, maxChars);
      LongestIsLongest(lines, start, start + 1, end, maxLines, maxChars);
      var chunkText := Join(lines[start..end]);
      ghost var rest := WindowChunks(repo, path, lines, end, GreedyEnds(lines, end, maxLines, maxChars));
      ghost var ends := GreedyEnds(lines, start, maxLines, maxChars);
      assert ends[0] == end && ends[1..] == GreedyEnds(lines, end, maxLines, maxChars);
      if TrimSpace(chunkText) != "" {
        var chunk := ChunkId(repo, path, start + 1, end, chunkText);
        assert chunks + ([chunk] + rest) == (chunks + [chunk]) + rest;
        chunks := chunks + [chunk];
      } else {
        assert [] + rest == rest;
      }
      start := end;
    }
    assert GreedyEnds(lines, start, maxLines, maxChars) == [];
  }

  /** Chunks of one file name its path, follow each other by line and have distinct ids. */
  lemma {:induction false} WindowChunksOrdered(repo: string, path: string, lines: seq<string>, a: nat, ends: seq<nat>,
                                               maxLines: int, maxChars: int)
    requires a <= |lines| && Tiles(lines, a, ends, maxLines, maxChars)
    ensures Ordered(WindowChunks(repo, path, lines, a, ends), repo, path, a)
    decreases |ends|
  {
    if ends != [] {
      WindowChunksOrdered(repo, path, lines, ends[0], ends[1..], maxLines, maxChars);
      var text := Join(lines[a..ends[0]]);
      var rest := WindowChunks(repo, path, lines, ends[0], ends[1..]);
      assert [] + rest == rest;
      OrderedCons(ChunkId(repo, path, a + 1, ends[0], text), rest, a);
    }
  }

  /** Chunks of one file, below line `a`, each starting after the one before has ended. */
  ghost predicate Ordered(c: seq<ChunkId>, repo: string, path: string, a: int) {
    (forall i :: 0 <= i < |c| ==> c[i].repo == repo && c[i].path == path && a < c[i].startLine <= c[i].endLine)
    && (forall i, j :: 0 <= i < j < |c| ==> c[i].endLine < c[j].startLine)
  }

  lemma OrderedCons(head: ChunkId, rest: seq<ChunkId>, a: int)
    requires a < head.startLine <= head.endLine && Ordered(rest, head.repo, head.path, head.endLine)
    ensures Ordered([head] + rest, head.repo, head.path, a) && Ordered(rest, head.repo, head.path, a)
  {}

  lemma {:induction false} TrimSpaceBlank(s: string)
    ensures TrimSpace(s) == [] <==> forall i :: 0 <= i < |s| ==> IsSpace(s[i])
  {
    if TrimLeft(s) == [] {
      TrimLeftBlank(s);
    } else {
      TrimLeftHead(s);
      TrimRightKeepsHead(TrimLeft(s));
      TrimLeftMembers(s);
      assert TrimLeft(s)[0] in s;
    }
  }

  lemma {:induction false} TrimLeftBlank(s: string)
    requires TrimLeft(s) == []
    ensures forall i :: 0 <= i < |s| ==> IsSpace(s[i])
  {
    if s != [] { TrimLeftBlank(s[1..]); }
  }

  lemma {:induction false} TrimLeftMembers(s: string)
    ensures forall c :: c in TrimLeft(s) ==> c in s
  {
    if s != [] { TrimLeftMembers(s[1..]); }
  }

  lemma {:induction false} JoinHolds(lines: seq<string>, i: nat, c: char)
    requires i < |lines| && c in lines[i]
    ensures c in Join(lines)
  {
    if i > 0 { JoinHolds(lines[1..], i - 1, c); }
  }

  /** Line `i` is inside the chunk, which holds the text of its lines. */
  ghost predicate Covers(c: ChunkId, lines: seq<string>, i: nat) {
    1 <= c.startLine <= i + 1 <= c.endLine <= |lines| && c.text == Join(lines[c.startLine - 1..c.endLine])
  }

  /** A chunk of the window from line `a` to line `b`. */
  ghost predicate Within(c: ChunkId, lines: seq<string>, maxLines: int, maxChars: int) {
    1 <= c.startLine <= c.endLine <= |lines| && c.text == Join(lines[c.startLine - 1..c.endLine]) && TrimSpace(c.text) != ""
    && (c.startLine == c.endLine || (c.endLine - c.startLine + 1 <= maxLines && |c.text| <= maxChars))
  }

  lemma {:induction false} WindowChunksWithin(repo: string, path: string, lines: seq<string>, a: nat, ends: seq<nat>,
                                              maxLines: int, maxChars: int)
    requires a <= |lines| && Tiles(lines, a, ends, maxLines, maxChars)
    ensures forall c :: c in WindowChunks(repo, path, lines, a, ends) ==> Within(c, lines, maxLines, maxChars)
    decreases |ends|
  {
    if ends != [] {
      WindowChunksWithin(repo, path, lines, ends[0], ends[1..], maxLines, maxChars);
      var c := ChunkId(repo, path, a + 1, ends[0], Join(lines[a..ends[0]]));
      assert TrimSpace(c.text) != "" ==> Within(c, lines, maxLines, maxChars);
      hide Within, TrimSpace;
    }
  }

  lemma DefaultLimits(repo: string, path: string, content: string, maxLines: int, maxChars: int)
    ensures maxLines <= 0 ==> ChunksOf(repo, path, content, maxLines, maxChars) == ChunksOf(repo, path, content, 80, maxChars)
    ensures maxChars <= 0 ==> ChunksOf(repo, path, content, maxLines, maxChars) == ChunksOf(repo, path, content, maxLines, 3000)
  {}

  /** A chunk is the text of its lines, is not blank, and keeps both limits if it has more than
      one line; a limit that is not positive means 80 lines and 3000 characters. */
  lemma ChunkLimits(repo: string, path: string, content: string, maxLines: int, maxChars: int, c: ChunkId)
    requires c in ChunksOf(repo, path, content, maxLines, maxChars)
    ensures var lines := Lines(content);
      1 <= c.startLine <= c.endLine <= |lines| && c.text == Join(lines[c.startLine - 1..c.endLine]) && TrimSpace(c.text) != ""
      && (c.startLine < c.endLine ==>
            c.endLine - c.startLine + 1 <= (if maxLines > 0 then maxLines else 80)
            && |c.text| <= (if maxChars > 0 then maxChars else 3000))
  {
    var lines := Lines(content);
    var ml, mc := LimitOr(maxLines, DEFAULT_MAX_LINES), LimitOr(maxChars, DEFAULT_MAX_CHARACTERS);
    GreedyTiles(lines, 0, ml, mc);
    WindowChunksWithin(repo, path, lines, 0, GreedyEnds(lines, 0, ml, mc), ml, mc);
    hide Lines, Join, TrimSpace, WindowChunks, GreedyEnds, Tiles;
  }

  /** Every line that is not blank lies in a chunk, inside the text of that chunk. */
  lemma {:induction false} LineCovered(repo: string, path: string, lines: seq<string>, a: nat, ends: seq<nat>,
                                       maxLines: int, maxChars: int, i: nat)
    requires a <= i < |lines| && Tiles(lines, a, ends, maxLines, maxChars)
    requires TrimSpace(lines[i]) != ""
    ensures exists c :: c in WindowChunks(repo, path, lines, a, ends) && Covers(c, lines, i)
    decreases |ends|
  {
    var b := ends[0];
    var chunks, rest := WindowChunks(repo, path, lines, a, ends), WindowChunks(repo, path, lines, b, ends[1..]);
    if i < b {
      TrimSpaceBlank(lines[i]);
      var j :| 0 <= j < |lines[i]| && !IsSpace(lines[i][j]);
      assert lines[a..b][i - a] == lines[i];
      JoinHolds(lines[a..b], i - a, lines[i][j]);
      TrimSpaceBlank(Join(lines[a..b]));
      var c := ChunkId(repo, path, a + 1, b, Join(lines[a..b]));
      assert chunks[0] == c && Covers(c, lines, i);
    } else {
      LineCovered(repo, path, lines, b, ends[1..], maxLines, maxChars, i);
      var c :| c in rest && Covers(c, lines, i);
      assert c in chunks;
    }
  }

  /** The chunks of a file: all of one path, in line order (so their ids differ), and
      covering every line that is not blank. */
  lemma ChunksCover(repo: string, path: string, content: string, maxLines: int, maxChars: int)
    ensures Ordered(ChunksOf(repo, path, content, maxLines, maxChars), repo, path, 0)
    ensures var c, lines := ChunksOf(repo, path, content, maxLines, maxChars), Lines(content);
      forall i :: 0 <= i < |lines| && TrimSpace(lines[i]) != ""
        ==> exists chunk :: chunk in c && Covers(chunk, lines, i)
  {
    var lines := Lines(content);
    var ml, mc := LimitOr(maxLines, DEFAULT_MAX_LINES), LimitOr(maxChars, DEFAULT_MAX_CHARACTERS);
    GreedyTiles(lines, 0, ml, mc);
    WindowChunksOrdered(repo, path, lines, 0, GreedyEnds(lines, 0, ml, mc), ml, mc);
    forall i | 0 <= i < |lines| && TrimSpace(lines[i]) != "" {
      LineCovered(repo, path, lines, 0, GreedyEnds(lines, 0, ml, mc), ml, mc, i);
    }
  }
}
