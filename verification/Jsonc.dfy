/** Configuration text with comments and trailing commas, reduced to plain JSON (config.go).
    String literals follow section 7 of RFC 8259: a backslash escapes the next byte.

    The reference is a tokenizer: text is a sequence of literals, comments and other bytes.
    The passes of the program are byte loops with flags; they are proved against it. */
module Jsonc {

  datatype Token =
    | Literal(text: string)   // from a quote to its closing quote, or to the end of the text
    | Comment(text: string)   // a line comment without its newline, or a block comment
    | Other(byte: char)

  /** Index just after the quote that closes the literal whose body is at `i`, or `|s|`. */
  function LiteralEnd(s: string, i: nat, escaped: bool): (e: nat)
    requires i <= |s|
    ensures i <= e <= |s|
    decreases |s| - i
  {
    if i == |s| then i
    else if escaped then LiteralEnd(s, i + 1, false)
    else if s[i] == '\\' then LiteralEnd(s, i + 1, true)
    else if s[i] == '"' then i + 1
    else LiteralEnd(s, i + 1, false)
  }

  /** Index of the newline at or after `i`, or `|s|`. */
  function LineEnd(s: string, i: nat): (e: nat)
    requires i <= |s|
    ensures i <= e <= |s|
    decreases |s| - i
  {
    if i == |s| || s[i] == '\n' then i else LineEnd(s, i + 1)
  }

  /** Index just after the first star-slash at or after `i`, or `|s|`. */
  function BlockEnd(s: string, i: nat): (e: nat)
    requires i <= |s|
    ensures i <= e <= |s|
    decreases |s| - i
  {
    if i + 1 >= |s| then |s|
    else if s[i] == '*' && s[i + 1] == '/' then i + 2
    else BlockEnd(s, i + 1)
  }

  predicate CommentStartsAt(s: string, i: nat) {
    i + 1 < |s| && s[i] == '/' && (s[i + 1] == '/' || s[i + 1] == '*')
  }

  /** The token at `i` and the index after it. */
  function TokenEnd(s: string, i: nat): (e: nat)
    requires i < |s|
    ensures i < e <= |s|
  {
    if s[i] == '"' then LiteralEnd(s, i + 1, false)
    else if !CommentStartsAt(s, i) then i + 1
    else if s[i + 1] == '/' then LineEnd(s, i + 2)
    else BlockEnd(s, i + 2)
  }

  function TokenAt(s: string, i: nat): Token
    requires i < |s|
  {
    if s[i] == '"' then Literal(s[i..TokenEnd(s, i)])
    else if CommentStartsAt(s, i) then Comment(s[i..TokenEnd(s, i)])
    else Other(s[i])
  }

  /** The tokens of `s` from index `i` on. */
  function LexFrom(s: string, i: nat): seq<Token>
    requires i <= |s|
    decreases |s| - i
  {
    if i == |s| then [] else [TokenAt(s, i)] + LexFrom(s, TokenEnd(s, i))
  }

  function Lex(s: string): seq<Token> {
    LexFrom(s, 0)
  }

  function Text(t: Token): string {
    match t
    case Literal(text) => text
    case Comment(text) => text
    case Other(byte) => [byte]
  }

  function Render(tokens: seq<Token>): string {
    if tokens == [] then [] else Text(tokens[0]) + Render(tokens[1..])
  }

  function WithoutComments(tokens: seq<Token>): seq<Token> {
    if tokens == [] then []
    else if tokens[0].Comment? then WithoutComments(tokens[1..])
    else [tokens[0]] + WithoutComments(tokens[1..])
  }

  function Literals(tokens: seq<Token>): seq<string> {
    if tokens == [] then []
    else if tokens[0].Literal? then [tokens[0].text] + Literals(tokens[1..])
    else Literals(tokens[1..])
  }

  predicate CommentFree(tokens: seq<Token>) {
    forall i :: 0 <= i < |tokens| ==> !tokens[i].Comment?
  }

  /** What comment stripping returns: the text without its comment tokens. */
  function Uncommented(s: string): string {
    Render(WithoutComments(Lex(s)))
  }

  /** The same, from an index on. */
  function UncommentedFrom(s: string, i: nat): string
    requires i <= |s|
  {
    Render(WithoutComments(LexFrom(s, i)))
  }

  lemma UncommentedStep(s: string, i: nat)
    requires i < |s|
    ensures UncommentedFrom(s, i)
         == (if TokenAt(s, i).Comment? then [] else Text(TokenAt(s, i))) + UncommentedFrom(s, TokenEnd(s, i))
  {}

  /** What is still to be written at index `i`, in the state the loop's flags describe. */
  function Remaining(s: string, i: nat, inString: bool, escaped: bool): string
    requires i <= |s|
  {
    if inString then
      var e := LiteralEnd(s, i, escaped);
      s[i..e] + UncommentedFrom(s, e)
    else UncommentedFrom(s, i)
  }

  /** The flags after a byte is copied: inside a literal, a backslash escapes the next byte
      and an unescaped quote ends the literal. */
  function Flags(ch: char, inString: bool, escaped: bool): (bool, bool) {
    if inString then (escaped || ch != '"', !escaped && ch == '\\') else (ch == '"', false)
  }

  lemma SliceHead(s: string, i: nat, e: nat, rest: string)
    requires i < e <= |s|
    ensures s[i..e] + rest == [s[i]] + (s[i + 1..e] + rest)
    ensures i + 1 == e ==> s[i..e] + rest == [s[i]] + rest
  {
    assert s[i..e] == [s[i]] + s[i + 1..e];
  }

  lemma CopiedByte(s: string, i: nat, inString: bool, escaped: bool)
    requires i < |s| && (inString || !CommentStartsAt(s, i))
    ensures var f := Flags(s[i], inString, escaped);
        Remaining(s, i, inString, escaped) == [s[i]] + Remaining(s, i + 1, f.0, f.1)
  {
    hide UncommentedFrom;
    if !inString { UncommentedStep(s, i); }
    if inString || s[i] == '"' {
      var e := if inString then LiteralEnd(s, i, escaped) else LiteralEnd(s, i + 1, false);
      SliceHead(s, i, e, UncommentedFrom(s, e));
    }
  }

  lemma SkippedComment(s: string, i: nat)
    requires i < |s| && s[i] != '"' && CommentStartsAt(s, i)
    ensures Remaining(s, i, false, false) == Remaining(s, TokenEnd(s, i), false, false)
  {
    UncommentedStep(s, i);
  }

  lemma MoveByte(out: string, ch: char, rest: string)
    ensures out + ([ch] + rest) == (out + [ch]) + rest
  {}

  /** `stripJSONCComments` */
  method StripComments(input: string) returns (out: string)
    ensures out == Uncommented(input)
  {
    hide Remaining, Uncommented, CommentStartsAt;
    out := [];
    var inString, escaped, i := false, false, 0;
    StartsOutside(input);
    while i < |input|
      invariant i <= |input| && (!inString ==> !escaped)
      invariant out + Remaining(input, i, inString, escaped) == Uncommented(input)
      decreases |input| - i
    {
      var ch := input[i];
      ghost var f := Flags(ch, inString, escaped);
      assert inString || !CommentStartsAt(input, i) ==>
          out + Remaining(input, i, inString, escaped) == (out + [ch]) + Remaining(input, i + 1, f.0, f.1)
      by {
        if inString || !CommentStartsAt(input, i) {
          CopiedByte(input, i, inString, escaped);
          MoveByte(out, ch, Remaining(input, i + 1, f.0, f.1));
        }
      }
      if inString {
        out := out + [ch];
        i := i + 1;
        if escaped {
          escaped := false;
          continue;
        }
        if ch == '\\' {
          escaped := true;
          continue;
        }
        if ch == '"' {
          inString := false;
        }
        continue;
      }
      CommentMark(input, i);
      if ch == '"' {
        inString := true;
        out := out + [ch];
        i := i + 1;
        continue;
      }
      if ch == '/' && i + 1 < |input| {
        var next := input[i + 1];
        ghost var start := i;
        if next == '/' {
          SkippedComment(input, i);
          i := i + 2;
          while i < |input| && input[i] != '\n'
            invariant start + 2 <= i <= |input|
            invariant LineEnd(input, i) == LineEnd(input, start + 2)
          {
            i := i + 1;
          }
          if i < |input| {
            CommentMark(input, i);
            CopiedByte(input, i, false, false);
            MoveByte(out, '\n', Remaining(input, i + 1, false, false));
            out := out + ['\n'];
            i := i + 1;
          }
          continue;
        }
        if next == '*' {
          SkippedComment(input, i);
          i := i + 2;
          while i + 1 < |input| && !(input[i] == '*' && input[i + 1] == '/')
            invariant start + 2 <= i <= |input|
            invariant BlockEnd(input, i) == BlockEnd(input, start + 2)
          {
            i := i + 1;
          }
          if i + 1 < |input| {
            i := i + 1;
          }
          i := if i < |input| then i + 1 else i;
          continue;
        }
      }
      out := out + [ch];
      i := i + 1;
    }
    NothingRemains(input, inString, escaped);
  }

  lemma StartsOutside(s: string)
    ensures Remaining(s, 0, false, false) == Uncommented(s)
  {}

  lemma NothingRemains(s: string, inString: bool, escaped: bool)
    ensures Remaining(s, |s|, inString, escaped) == []
  {}

  lemma CommentMark(s: string, i: nat)
    requires i < |s|
    ensures CommentStartsAt(s, i) <==> i + 1 < |s| && s[i] == '/' && s[i + 1] in {'/', '*'}
  {}

  // ----- what stripping keeps -----

  /** `s[i..]` read as a text of its own has the same tokens. */
  lemma {:induction false} LiteralEndShift(s: string, i: nat, k: nat, escaped: bool)
    requires i <= k <= |s|
    ensures LiteralEnd(s, k, escaped) == i + LiteralEnd(s[i..], k - i, escaped)
    decreases |s| - k
  {
    if k < |s| {
      LiteralEndShift(s, i, k + 1, !escaped && s[k] == '\\');
    }
  }

  lemma {:induction false} LineEndShift(s: string, i: nat, k: nat)
    requires i <= k <= |s|
    ensures LineEnd(s, k) == i + LineEnd(s[i..], k - i)
    decreases |s| - k
  {
    if k < |s| {
      LineEndShift(s, i, k + 1);
    }
  }

  lemma {:induction false} BlockEndShift(s: string, i: nat, k: nat)
    requires i <= k <= |s|
    ensures BlockEnd(s, k) == i + BlockEnd(s[i..], k - i)
    decreases |s| - k
  {
    if k + 1 < |s| {
      BlockEndShift(s, i, k + 1);
    }
  }

  lemma TokenShift(s: string, i: nat, k: nat)
    requires i <= k < |s|
    ensures TokenEnd(s, k) == i + TokenEnd(s[i..], k - i)
    ensures TokenAt(s, k) == TokenAt(s[i..], k - i)
  {
    var t := s[i..];
    LiteralEndShift(s, i, k + 1, false);
    if CommentStartsAt(s, k) {
      LineEndShift(s, i, k + 2);
      BlockEndShift(s, i, k + 2);
    }
    assert s[k..TokenEnd(s, k)] == t[k - i..TokenEnd(t, k - i)];
  }

  lemma {:induction false} LexShift(s: string, i: nat, k: nat)
    requires i <= k <= |s|
    ensures LexFrom(s, k) == LexFrom(s[i..], k - i)
    decreases |s| - k
  {
    if k < |s| {
      TokenShift(s, i, k);
      LexShift(s, i, TokenEnd(s, k));
    }
  }

  /** A literal token read in one text is read again in front of any other text, unless it
      was cut off by the end of its own text. */
  lemma {:induction false} LiteralCloses(s: string, k: nat, escaped: bool, rest: string)
    requires k <= |s|
    requires LiteralEnd(s, k, escaped) < |s| || rest == []
    ensures var e := LiteralEnd(s, k, escaped);
            LiteralEnd(s[..e] + rest, k, escaped) == e
    decreases |s| - k
  {
    var e := LiteralEnd(s, k, escaped);
    if rest == [] {
      assert s[..e] + rest == s[..e];
    }
    if k < |s| && (escaped || s[k] != '"') {
      LiteralCloses(s, k + 1, !escaped && s[k] == '\\', rest);
    }
  }

  /** Token `t`, found at the head of a text, is found again at the head of `Text(t) + rest`. */
  ghost predicate Prefixes(t: Token, rest: string) {
    !t.Comment? && Text(t) != [] &&
    LexFrom(Text(t) + rest, 0) == [t] + LexFrom(Text(t) + rest, |Text(t)|)
  }

  lemma LexAppend(t: Token, rest: string)
    requires Prefixes(t, rest)
    ensures Lex(Text(t) + rest) == [t] + Lex(rest)
  {
    LexShift(Text(t) + rest, |Text(t)|, |Text(t)|);
    assert (Text(t) + rest)[|Text(t)|..] == rest;
  }

  /** A slash kept by stripping is never followed, in the output, by a byte that would
      start a comment. */
  lemma HeadOfUncommented(s: string, i: nat)
    requires i < |s| && s[i] == '/' && !CommentStartsAt(s, i)
    ensures var rest := UncommentedFrom(s, i + 1); rest == [] || rest[0] !in {'/', '*'}
  {
    if i + 1 < |s| {
      UncommentedStep(s, i + 1);
    }
  }

  /** A literal read at `i` is read again in front of `rest`, which is empty when the
      literal was cut off by the end of the text. */
  lemma LiteralStands(s: string, i: nat, rest: string)
    requires i < |s| && s[i] == '"'
    requires TokenEnd(s, i) < |s| || rest == []
    ensures Prefixes(TokenAt(s, i), rest)
  {
    var t, e, tail := TokenAt(s, i), TokenEnd(s, i), s[i..];
    var out := Text(t) + rest;
    LiteralEndShift(s, i, i + 1, false);
    LiteralCloses(tail, 1, false, rest);
    assert tail[..e - i] == Text(t);
    assert LiteralEnd(out, 1, false) == |Text(t)|;
    assert out[0..|Text(t)|] == Text(t);
  }

  lemma OtherStands(ch: char, rest: string)
    requires ch != '"'
    requires ch == '/' ==> rest == [] || rest[0] !in {'/', '*'}
    ensures Prefixes(Other(ch), rest)
  {
    var out := [ch] + rest;
    assert out[0] == ch && out[1..] == rest;
    assert !CommentStartsAt(out, 0);
  }

  lemma KeptTokenStands(s: string, i: nat)
    requires i < |s| && !TokenAt(s, i).Comment?
    ensures Prefixes(TokenAt(s, i), UncommentedFrom(s, TokenEnd(s, i)))
  {
    var rest := UncommentedFrom(s, TokenEnd(s, i));
    if s[i] == '"' {
      LiteralStands(s, i, rest);
    } else {
      if s[i] == '/' { HeadOfUncommented(s, i); }
      OtherStands(s[i], rest);
    }
  }

  lemma {:induction false} LexUncommentedFrom(s: string, i: nat)
    requires i <= |s|
    ensures Lex(UncommentedFrom(s, i)) == WithoutComments(LexFrom(s, i))
    decreases |s| - i
  {
    if i < |s| {
      LexUncommentedFrom(s, TokenEnd(s, i));
      UncommentedStep(s, i);
      if TokenAt(s, i).Comment? {
        assert UncommentedFrom(s, i) == UncommentedFrom(s, TokenEnd(s, i));
      } else {
        KeptTokenStands(s, i);
        LexAppend(TokenAt(s, i), UncommentedFrom(s, TokenEnd(s, i)));
      }
    }
  }

  /** Stripping deletes exactly the comment tokens: the tokens of the output are the other
      tokens of the input, in order and byte for byte. */
  lemma StrippingRemovesOnlyComments(s: string)
    ensures Lex(Uncommented(s)) == WithoutComments(Lex(s))
  {
    LexUncommentedFrom(s, 0);
  }

  lemma {:induction false} WithoutCommentsFacts(tokens: seq<Token>)
    ensures CommentFree(WithoutComments(tokens))
    ensures Literals(WithoutComments(tokens)) == Literals(tokens)
    ensures CommentFree(tokens) ==> WithoutComments(tokens) == tokens
    ensures |WithoutComments(tokens)| <= |tokens|
  {
    if tokens != [] {
      WithoutCommentsFacts(tokens[1..]);
      assert tokens == [tokens[0]] + tokens[1..];
    }
  }

  lemma {:induction false} LexRenders(s: string, i: nat)
    requires i <= |s|
    ensures Render(LexFrom(s, i)) == s[i..]
    decreases |s| - i
  {
    if i < |s| {
      LexRenders(s, TokenEnd(s, i));
      assert s[i..] == s[i..TokenEnd(s, i)] + s[TokenEnd(s, i)..];
    }
  }

  lemma StrippingIsIdempotent(s: string)
    ensures Uncommented(Uncommented(s)) == Uncommented(s)
  {
    StrippingRemovesOnlyComments(s);
    WithoutCommentsFacts(Lex(s));
    WithoutCommentsFacts(WithoutComments(Lex(s)));
  }

  /** Stripping is the identity on exactly the texts without comments. */
  lemma StrippingFixesCommentFree(s: string)
    ensures Uncommented(s) == s <==> CommentFree(Lex(s))
  {
    WithoutCommentsFacts(Lex(s));
    LexRenders(s, 0);
    if Uncommented(s) == s {
      StrippingRemovesOnlyComments(s);
    }
  }

  /** Every string literal survives stripping, escapes included, and none is invented. */
  lemma StrippingKeepsLiterals(s: string)
    ensures Literals(Lex(Uncommented(s))) == Literals(Lex(s))
  {
    StrippingRemovesOnlyComments(s);
    WithoutCommentsFacts(Lex(s));
  }

  // ----- stripping, byte by byte -----

  /** The body of a literal: a backslash takes the byte after it with it, and no quote stands by
      itself. */
  predicate LiteralBody(body: string) {
    body == [] ||
    if body[0] == '\\' then |body| >= 2 && LiteralBody(body[2..]) else body[0] != '"' && LiteralBody(body[1..])
  }

  lemma {:induction false} LiteralEndAt(s: string, i: nat, e: nat)
    requires i <= e < |s| && LiteralBody(s[i..e]) && s[e] == '"'
    ensures LiteralEnd(s, i, false) == e + 1
    decreases e - i
  {
    if i < e {
      var n := if s[i] == '\\' then 2 else 1;
      assert s[i..e][0] == s[i] && s[i..e][n..] == s[i + n..e];
      LiteralEndAt(s, i + n, e);
      if n == 2 { assert LiteralEnd(s, i, false) == LiteralEnd(s, i + 1, true) == LiteralEnd(s, i + 2, false); }
    }
  }

  lemma {:induction false} LineEndAt(s: string, i: nat, e: nat)
    requires i <= e <= |s| && (e < |s| ==> s[e] == '\n')
    requires forall k :: i <= k < e ==> s[k] != '\n'
    ensures LineEnd(s, i) == e
    decreases e - i
  {
    if i < e { LineEndAt(s, i + 1, e); }
  }

  lemma {:induction false} BlockEndAt(s: string, i: nat, e: nat)
    requires i <= e && e + 1 < |s| && s[e] == '*' && s[e + 1] == '/'
    requires forall k :: i <= k < e ==> !(s[k] == '*' && s[k + 1] == '/')
    ensures BlockEnd(s, i) == e + 2
    decreases e - i
  {
    if i < e { BlockEndAt(s, i + 1, e); }
  }

  /** The first token of a text, and what stripping does with the rest. */
  lemma FirstToken(a: string, s: string)
    requires a != [] && TokenEnd(a + s, 0) == |a|
    ensures Uncommented(a + s) == (if TokenAt(a + s, 0).Comment? then [] else a) + Uncommented(s)
  {
    var t := a + s;
    UncommentedStep(t, 0);
    LexShift(t, |a|, |a|);
    assert t[|a|..] == s && t[0..|a|] == a;
    hide LexFrom, Render, WithoutComments;
  }

  /** A byte that starts no literal and no comment stays. */
  lemma PlainByteStays(c: char, s: string)
    requires c != '"' && (c == '/' ==> s == [] || (s[0] != '/' && s[0] != '*'))
    ensures Uncommented([]) == [] && Uncommented([c] + s) == [c] + Uncommented(s)
  {
    assert ([c] + s)[0] == c && ([c] + s)[1..] == s;
    FirstToken([c], s);
  }

  /** A line comment goes, up to its newline. */
  lemma LineCommentGoes(body: string, s: string)
    requires '\n' !in body && (s != [] ==> s[0] == '\n')
    ensures Uncommented("//" + body + s) == Uncommented(s)
  {
    var a := "//" + body;
    var t := a + s;
    assert t[0] == '/' && t[1] == '/' && (s != [] ==> t[|a|] == s[0]);
    forall k | 2 <= k < |a| ensures t[k] != '\n' { assert t[k] == body[k - 2]; }
    LineEndAt(t, 2, |a|);
    FirstToken(a, s);
  }

  /** A block comment goes, up to the first star-slash after its start. */
  lemma BlockCommentGoes(body: string, s: string)
    requires forall k :: 0 <= k < |body| - 1 ==> !(body[k] == '*' && body[k + 1] == '/')
    ensures Uncommented("/*" + body + "*/" + s) == Uncommented(s)
  {
    var a := "/*" + body + "*/";
    var t := a + s;
    assert t[0] == '/' && t[1] == '*' && t[|a| - 2] == '*' && t[|a| - 1] == '/';
    forall k | 2 <= k < |a| - 2 ensures !(t[k] == '*' && t[k + 1] == '/') {
      assert t[k] == body[k - 2];
      if k + 1 < |a| - 2 { assert t[k + 1] == body[k - 1]; }
    }
    BlockEndAt(t, 2, |a| - 2);
    FirstToken(a, s);
  }

  /** A literal stays, whatever it holds. */
  lemma LiteralStays(body: string, s: string)
    requires LiteralBody(body)
    ensures Uncommented("\"" + body + "\"" + s) == "\"" + body + "\"" + Uncommented(s)
  {
    var a := "\"" + body + "\"";
    var t := a + s;
    assert t[0] == '"' && t[|a| - 1] == '"' && t[1..|a| - 1] == body;
    LiteralEndAt(t, 1, |a| - 1);
    FirstToken(a, s);
  }

  /** A block comment or a literal that is never closed reaches to the end of the text. */
  lemma {:induction false} UnclosedBlock(s: string, i: nat)
    requires i <= |s| && forall k :: i <= k < |s| - 1 ==> !(s[k] == '*' && s[k + 1] == '/')
    ensures BlockEnd(s, i) == |s|
    decreases |s| - i
  {
    if i + 1 < |s| { UnclosedBlock(s, i + 1); }
  }

  lemma UnclosedBlockGoes(body: string)
    requires forall k :: 0 <= k < |body| - 1 ==> !(body[k] == '*' && body[k + 1] == '/')
    ensures Uncommented("/*" + body) == []
  {
    var t := "/*" + body;
    assert t[0] == '/' && t[1] == '*' && t[2..] == body;
    forall k | 2 <= k < |t| - 1 ensures !(t[k] == '*' && t[k + 1] == '/') {
      assert t[k] == body[k - 2] && t[k + 1] == body[k - 1];
    }
    UnclosedBlock(t, 2);
    assert t + [] == t;
    FirstToken(t, []);
  }

  // ----- trailing commas -----

  predicate IsBlank(c: char) {
    c == ' ' || c == '\t' || c == '\n' || c == '\r'
  }

  /** `nextNonWhitespaceByte`, with 0 standing for the end of the text. */
  function NextNonBlank(s: string, i: nat): char
    requires i <= |s|
    decreases |s| - i
  {
    if i == |s| then '\0' else if IsBlank(s[i]) then NextNonBlank(s, i + 1) else s[i]
  }

  /** A comma outside literals whose next non-blank byte closes an object or an array. */
  predicate Trails(s: string, i: nat)
    requires i < |s|
  {
    s[i] == ',' && NextNonBlank(s, i + 1) in {'}', ']'}
  }

  /** The tokens from `i` on, without the `Other` tokens that are trailing commas. */
  function CommaTokens(s: string, i: nat): seq<Token>
    requires i <= |s|
    decreases |s| - i
  {
    if i == |s| then []
    else
      (if s[i] == '"' then [Literal(s[i..LiteralEnd(s, i + 1, false)])]
       else if Trails(s, i) then []
       else [Other(s[i])])
      + CommaTokens(s, if s[i] == '"' then LiteralEnd(s, i + 1, false) else i + 1)
  }

  /** What the trailing-comma pass returns; it does not look for comments. */
  function WithoutTrailingCommas(s: string): string {
    Render(CommaTokens(s, 0))
  }

  function CommaRemaining(s: string, i: nat, inString: bool, escaped: bool): string
    requires i <= |s|
  {
    if inString then
      var e := LiteralEnd(s, i, escaped);
      s[i..e] + Render(CommaTokens(s, e))
    else Render(CommaTokens(s, i))
  }

  lemma CommaStep(s: string, i: nat)
    requires i < |s|
    ensures Render(CommaTokens(s, i)) ==
      if s[i] == '"' then
        var e := LiteralEnd(s, i + 1, false); s[i..e] + Render(CommaTokens(s, e))
      else (if Trails(s, i) then [] else [s[i]]) + Render(CommaTokens(s, i + 1))
  {
    assert [] + CommaTokens(s, i + 1) == CommaTokens(s, i + 1);
    assert [] + Render(CommaTokens(s, i + 1)) == Render(CommaTokens(s, i + 1));
  }

  lemma CopiedOrDropped(s: string, i: nat, inString: bool, escaped: bool)
    requires i < |s|
    ensures var f := Flags(s[i], inString, escaped);
        CommaRemaining(s, i, inString, escaped)
          == (if !inString && Trails(s, i) then [] else [s[i]]) + CommaRemaining(s, i + 1, f.0, f.1)
  {
    hide CommaTokens, Render;
    CommaStep(s, i);
    if inString || s[i] == '"' {
      var e := if inString then LiteralEnd(s, i, escaped) else LiteralEnd(s, i + 1, false);
      SliceHead(s, i, e, Render(CommaTokens(s, e)));
    }
  }

  /** `stripJSONCTrailingCommas` */
  method StripTrailingCommas(input: string) returns (out: string)
    ensures out == WithoutTrailingCommas(input)
  {
    hide CommaRemaining, CommaTokens, Render;
    out := [];
    var inString, escaped, i := false, false, 0;
    CommaEnds(input, inString, escaped);
    while i < |input|
      invariant i <= |input| && (!inString ==> !escaped)
      invariant out + CommaRemaining(input, i, inString, escaped) == WithoutTrailingCommas(input)
    {
      var ch := input[i];
      ghost var f := Flags(ch, inString, escaped);
      CopiedOrDropped(input, i, inString, escaped);
      MoveByte(out, ch, CommaRemaining(input, i + 1, f.0, f.1));
      if inString {
        out := out + [ch];
        i := i + 1;
        if escaped {
          escaped := false;
          continue;
        }
        if ch == '\\' {
          escaped := true;
          continue;
        }
        if ch == '"' {
          inString := false;
        }
        continue;
      }
      if ch == '"' {
        inString := true;
        out := out + [ch];
        i := i + 1;
        continue;
      }
      if ch == ',' {
        var next := NextNonBlank(input, i + 1);
        if next == '}' || next == ']' {
          i := i + 1;
          continue;
        }
      }
      out := out + [ch];
      i := i + 1;
    }
    CommaEnds(input, inString, escaped);
  }

  lemma CommaEnds(s: string, inString: bool, escaped: bool)
    ensures CommaRemaining(s, |s|, inString, escaped) == []
    ensures CommaRemaining(s, 0, false, false) == WithoutTrailingCommas(s)
  {}

  // ----- the comma pass, byte by byte -----

  lemma {:induction false} NextNonBlankShift(s: string, i: nat, k: nat)
    requires i <= k <= |s|
    ensures NextNonBlank(s, k) == NextNonBlank(s[i..], k - i)
    decreases |s| - k
  {
    if k < |s| { NextNonBlankShift(s, i, k + 1); }
  }

  lemma CommaUnfold(s: string, i: nat)
    requires i < |s|
    ensures s[i] == '"' ==>
              CommaTokens(s, i) == [Literal(s[i..LiteralEnd(s, i + 1, false)])] + CommaTokens(s, LiteralEnd(s, i + 1, false))
    ensures s[i] != '"' ==>
              CommaTokens(s, i) == (if s[i] == ',' && NextNonBlank(s, i + 1) in {'}', ']'} then [] else [Other(s[i])])
                                   + CommaTokens(s, i + 1)
  {}

  lemma CommaShiftLiteral(s: string, i: nat, k: nat)
    requires i <= k < |s| && s[k] == '"'
    requires var e := LiteralEnd(s, k + 1, false); CommaTokens(s, e) == CommaTokens(s[i..], e - i)
    ensures CommaTokens(s, k) == CommaTokens(s[i..], k - i)
  {
    hide LiteralEnd, CommaTokens;
    var e, t := LiteralEnd(s, k + 1, false), s[i..];
    CommaUnfold(s, k);
    CommaUnfold(t, k - i);
    LiteralEndShift(s, i, k + 1, false);
    assert s[k..e] == t[k - i..e - i];
  }

  lemma CommaShiftOther(s: string, i: nat, k: nat)
    requires i <= k < |s| && s[k] != '"' && CommaTokens(s, k + 1) == CommaTokens(s[i..], k + 1 - i)
    ensures CommaTokens(s, k) == CommaTokens(s[i..], k - i)
  {
    hide NextNonBlank, CommaTokens;
    CommaUnfold(s, k);
    CommaUnfold(s[i..], k - i);
    NextNonBlankShift(s, i, k + 1);
  }

  lemma {:induction false} CommaShift(s: string, i: nat, k: nat)
    requires i <= k <= |s|
    ensures CommaTokens(s, k) == CommaTokens(s[i..], k - i)
    decreases |s| - k
  {
    if k < |s| {
      hide CommaTokens, LiteralEnd;
      if s[k] == '"' {
        CommaShift(s, i, LiteralEnd(s, k + 1, false));
        CommaShiftLiteral(s, i, k);
      } else {
        CommaShift(s, i, k + 1);
        CommaShiftOther(s, i, k);
      }
    }
  }

  lemma {:induction false} NextNonBlankAt(s: string, i: nat, e: nat)
    requires i <= e < |s| && !(s[e] == ' ' || s[e] == '\t' || s[e] == '\n' || s[e] == '\r')
    requires forall k :: i <= k < e ==> s[k] == ' ' || s[k] == '\t' || s[k] == '\n' || s[k] == '\r'
    ensures NextNonBlank(s, i) == s[e]
    decreases e - i
  {
    if i < e { NextNonBlankAt(s, i + 1, e); }
  }

  /** A comma goes exactly when a closing bracket follows it, blank space aside. */
  lemma CommaGoes(blanks: string, c: char, s: string)
    requires forall k :: 0 <= k < |blanks| ==> blanks[k] == ' ' || blanks[k] == '\t' || blanks[k] == '\n' || blanks[k] == '\r'
    requires !(c == ' ' || c == '\t' || c == '\n' || c == '\r')
    ensures var rest := blanks + [c] + s;
      WithoutTrailingCommas("," + rest)
      == (if c == '}' || c == ']' then "" else ",") + WithoutTrailingCommas(rest)
  {
    hide CommaTokens, Render, LiteralEnd, NextNonBlank;
    var rest := blanks + [c] + s;
    var t := "," + rest;
    assert t[0] == ',' && t[1 + |blanks|] == c;
    forall k | 1 <= k < 1 + |blanks| ensures t[k] == blanks[k - 1] {}
    NextNonBlankAt(t, 1, 1 + |blanks|);
    CommaStep(t, 0);
    CommaShift(t, 1, 1);
    assert t[1..] == rest;
  }

  /** Any other byte outside literals stays, and so does a literal. */
  lemma OtherByteStays(c: char, s: string)
    requires c != '"' && c != ','
    ensures WithoutTrailingCommas([]) == [] && WithoutTrailingCommas([c] + s) == [c] + WithoutTrailingCommas(s)
  {
    var t := [c] + s;
    assert t[0] == c && t[1..] == s;
    CommaStep(t, 0);
    CommaShift(t, 1, 1);
  }

  lemma LiteralKeepsCommas(body: string, s: string)
    requires LiteralBody(body)
    ensures WithoutTrailingCommas("\"" + body + "\"" + s) == "\"" + body + "\"" + WithoutTrailingCommas(s)
  {
    var a := "\"" + body + "\"";
    var t := a + s;
    assert t[0] == '"' && t[|a| - 1] == '"' && t[1..|a| - 1] == body && t[0..|a|] == a && t[|a|..] == s;
    LiteralEndAt(t, 1, |a| - 1);
    CommaStep(t, 0);
    CommaShift(t, |a|, |a|);
    hide CommaTokens, Render;
  }

  // ----- the comma pass as a rule about tokens -----

  /** The first token that is not blank space is a closing bracket. */
  predicate ClosesNext(tokens: seq<Token>) {
    tokens != [] &&
    if tokens[0].Other? && IsBlank(tokens[0].byte) then ClosesNext(tokens[1..])
    else tokens[0] in {Other('}'), Other(']')}
  }

  /** Drops every comma whose next token, blank space aside, closes an object or an array. */
  function DropTrailing(tokens: seq<Token>): seq<Token> {
    if tokens == [] then []
    else if tokens[0] == Other(',') && ClosesNext(tokens[1..]) then DropTrailing(tokens[1..])
    else [tokens[0]] + DropTrailing(tokens[1..])
  }

  lemma {:induction false} NextByteIsNextToken(s: string, i: nat)
    requires i <= |s| && CommentFree(LexFrom(s, i))
    ensures NextNonBlank(s, i) in {'}', ']'} <==> ClosesNext(LexFrom(s, i))
    decreases |s| - i
  {
    if i < |s| {
      CommentFreeStep(s, i);
      if IsBlank(s[i]) {
        NextByteIsNextToken(s, i + 1);
      }
    }
  }

  lemma CommentFreeStep(s: string, i: nat)
    requires i < |s| && CommentFree(LexFrom(s, i))
    ensures LexFrom(s, i)[0] == TokenAt(s, i) && LexFrom(s, i)[1..] == LexFrom(s, TokenEnd(s, i))
    ensures !TokenAt(s, i).Comment? && CommentFree(LexFrom(s, TokenEnd(s, i)))
    ensures s[i] != '"' ==> TokenEnd(s, i) == i + 1 && !CommentStartsAt(s, i)
  {
    assert LexFrom(s, i)[0] == TokenAt(s, i);
    assert LexFrom(s, i)[1..] == LexFrom(s, TokenEnd(s, i));
    forall k | 0 <= k < |LexFrom(s, TokenEnd(s, i))| ensures !LexFrom(s, TokenEnd(s, i))[k].Comment? {
      assert LexFrom(s, i)[k + 1] == LexFrom(s, TokenEnd(s, i))[k];
    }
  }

  lemma {:induction false} CommaTokensDrop(s: string, i: nat)
    requires i <= |s| && CommentFree(LexFrom(s, i))
    ensures CommaTokens(s, i) == DropTrailing(LexFrom(s, i))
    decreases |s| - i
  {
    if i < |s| {
      CommentFreeStep(s, i);
      CommaTokensDrop(s, TokenEnd(s, i));
      if s[i] == ',' {
        NextByteIsNextToken(s, i + 1);
      }
    }
  }

  /** A slash the comma pass keeps is not followed, in its output, by a byte that would
      start a comment. */
  lemma HeadAfterCommas(s: string, i: nat)
    requires i < |s| && s[i] == '/' && !CommentStartsAt(s, i)
    ensures var rest := Render(CommaTokens(s, i + 1)); rest == [] || rest[0] !in {'/', '*'}
  {
    if i + 1 < |s| {
      CommaStep(s, i + 1);
      if s[i + 1] == ',' && Trails(s, i + 1) {
        CommaStep(s, i + 2);
      }
    }
  }

  lemma CommaTokenStands(s: string, i: nat)
    requires i < |s| && CommentFree(LexFrom(s, i))
    ensures Prefixes(TokenAt(s, i), Render(CommaTokens(s, TokenEnd(s, i))))
  {
    CommentFreeStep(s, i);
    var t, e := TokenAt(s, i), TokenEnd(s, i);
    var rest := Render(CommaTokens(s, e));
    if t.Literal? {
      LiteralStands(s, i, rest);
    } else {
      if s[i] == '/' { HeadAfterCommas(s, i); }
      OtherStands(s[i], rest);
    }
  }

  lemma {:induction false} LexCommaTokens(s: string, i: nat)
    requires i <= |s| && CommentFree(LexFrom(s, i))
    ensures Lex(Render(CommaTokens(s, i))) == CommaTokens(s, i)
    decreases |s| - i
  {
    if i < |s| {
      CommentFreeStep(s, i);
      var e := TokenEnd(s, i);
      LexCommaTokens(s, e);
      if s[i] != '"' && Trails(s, i) {
        assert CommaTokens(s, i) == CommaTokens(s, e);
      } else {
        CommaTokenStands(s, i);
        assert CommaTokens(s, i) == [TokenAt(s, i)] + CommaTokens(s, e);
        LexAppend(TokenAt(s, i), Render(CommaTokens(s, e)));
      }
    }
  }

  /** On text without comments the pass drops exactly the trailing commas: the tokens of
      the output are the tokens of the input under `DropTrailing`. */
  lemma CommaPassDropsTrailing(s: string)
    requires CommentFree(Lex(s))
    ensures Lex(WithoutTrailingCommas(s)) == DropTrailing(Lex(s))
  {
    LexCommaTokens(s, 0);
    CommaTokensDrop(s, 0);
  }

  lemma {:induction false} DropKeepsLiterals(tokens: seq<Token>)
    ensures Literals(DropTrailing(tokens)) == Literals(tokens)
  {
    if tokens != [] {
      DropKeepsLiterals(tokens[1..]);
    }
  }

  /** The two passes in the order the configuration loader runs them: comments and trailing
      commas go, every other token stays, and every string literal is byte for byte there. */
  lemma LoaderPipeline(s: string)
    ensures Lex(WithoutTrailingCommas(Uncommented(s))) == DropTrailing(WithoutComments(Lex(s)))
    ensures Literals(Lex(WithoutTrailingCommas(Uncommented(s)))) == Literals(Lex(s))
  {
    StrippingRemovesOnlyComments(s);
    WithoutCommentsFacts(Lex(s));
    CommaPassDropsTrailing(Uncommented(s));
    DropKeepsLiterals(WithoutComments(Lex(s)));
  }

  // ----- when one comma pass is enough -----

  /** The first token that is not blank space is a comma that trails. */
  predicate CommaThenCloses(tokens: seq<Token>) {
    tokens != [] &&
    if tokens[0].Other? && IsBlank(tokens[0].byte) then CommaThenCloses(tokens[1..])
    else tokens[0] == Other(',') && ClosesNext(tokens[1..])
  }

  /** Somewhere two commas stand in a row, blank space aside, before a closing bracket. */
  predicate RepeatedTrailing(tokens: seq<Token>) {
    tokens != [] &&
    ((tokens[0] == Other(',') && CommaThenCloses(tokens[1..])) || RepeatedTrailing(tokens[1..]))
  }

  predicate HasTrailing(tokens: seq<Token>) {
    tokens != [] &&
    ((tokens[0] == Other(',') && ClosesNext(tokens[1..])) || HasTrailing(tokens[1..]))
  }

  lemma {:induction false} ClosesAfterDrop(tokens: seq<Token>)
    ensures ClosesNext(DropTrailing(tokens)) <==> ClosesNext(tokens) || CommaThenCloses(tokens)
    ensures !(ClosesNext(tokens) && CommaThenCloses(tokens))
  {
    if tokens != [] {
      ClosesAfterDrop(tokens[1..]);
    }
  }

  lemma {:induction false} TrailingAfterDrop(tokens: seq<Token>)
    ensures HasTrailing(DropTrailing(tokens)) <==> RepeatedTrailing(tokens)
  {
    if tokens != [] {
      TrailingAfterDrop(tokens[1..]);
      ClosesAfterDrop(tokens[1..]);
    }
  }

  lemma {:induction false} DropFixes(tokens: seq<Token>)
    ensures |DropTrailing(tokens)| <= |tokens|
    ensures DropTrailing(tokens) == tokens <==> !HasTrailing(tokens)
  {
    if tokens != [] {
      DropFixes(tokens[1..]);
    }
  }

  lemma DropTwice(tokens: seq<Token>)
    ensures DropTrailing(DropTrailing(tokens)) == DropTrailing(tokens) <==> !RepeatedTrailing(tokens)
  {
    TrailingAfterDrop(tokens);
    DropFixes(DropTrailing(tokens));
  }

  lemma {:induction false} DropCommentFree(tokens: seq<Token>)
    requires CommentFree(tokens)
    ensures CommentFree(DropTrailing(tokens))
  {
    if tokens != [] {
      DropCommentFree(tokens[1..]);
    }
  }

  /** On text without comments, which is all it is given, the comma pass is idempotent exactly
      when no two commas stand in a row, blank space aside, before a closing bracket. */
  lemma CommaPassIdempotent(s: string)
    requires CommentFree(Lex(s))
    ensures WithoutTrailingCommas(WithoutTrailingCommas(s)) == WithoutTrailingCommas(s) <==> !RepeatedTrailing(Lex(s))
  {
    var once := WithoutTrailingCommas(s);
    CommaPassDropsTrailing(s);
    DropCommentFree(Lex(s));
    CommaPassDropsTrailing(once);
    DropTwice(Lex(s));
    LexRenders(once, 0);
    LexRenders(WithoutTrailingCommas(once), 0);
  }

  lemma OtherToken(s: string, i: nat)
    requires i < |s| && s[i] !in {'"', '/'}
    ensures LexFrom(s, i) == [Other(s[i])] + LexFrom(s, i + 1)
  {}

  /** `[1,,]` loses one comma to the first pass and the other to a second one. */
  lemma RepeatedCommaNeedsTwoPasses()
    ensures WithoutTrailingCommas(WithoutTrailingCommas("[1,,]")) != WithoutTrailingCommas("[1,,]")
  {
    var s := "[1,,]";
    OtherToken(s, 0);
    OtherToken(s, 1);
    OtherToken(s, 2);
    OtherToken(s, 3);
    OtherToken(s, 4);
    assert LexFrom(s, 5) == [];
    var t := [Other('['), Other('1'), Other(','), Other(','), Other(']')];
    assert Lex(s) == t;
    hide Lex, LexFrom, WithoutTrailingCommas;
    assert t[1..][1..] == [Other(','), Other(','), Other(']')];
    assert t[1..][1..][1..] == [Other(','), Other(']')];
    assert t[1..][1..][1..][1..] == [Other(']')];
    assert RepeatedTrailing(t[1..][1..]);
    assert RepeatedTrailing(t[1..]);
    CommaPassIdempotent(s);
  }
}
