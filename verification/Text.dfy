/** The string helpers the modelled code takes from Go's `strings` package, on text whose
    bytes are written as characters. Blank space and letter case are the ASCII ones. */
module Text {

  predicate IsSpace(c: char) {
    c == ' ' || c == '\t' || c == '\n' || c == '\r' || c == '\U{0B}' || c == '\U{0C}'
  }

  function TrimLeft(s: string): string {
    if s != [] && IsSpace(s[0]) then TrimLeft(s[1..]) else s
  }

  function TrimRight(s: string): string {
    if s != [] && IsSpace(s[|s| - 1]) then TrimRight(s[..|s| - 1]) else s
  }

  /** `strings.TrimSpace` */
  function TrimSpace(s: string): string {
    TrimRight(TrimLeft(s))
  }

  function LowerChar(c: char): char {
    if 'A' <= c <= 'Z' then (c as int - 'A' as int + 'a' as int) as char else c
  }

  /** `strings.ToLower` */
  function ToLower(s: string): string {
    seq(|s|, i requires 0 <= i < |s| => LowerChar(s[i]))
  }

  /** `strings.EqualFold` */
  predicate EqualFold(a: string, b: string) {
    ToLower(a) == ToLower(b)
  }

  /** Index of the first `c` in `s`, or `|s|` when there is none. */
  function FindByte(s: string, c: char): (k: nat)
    ensures k <= |s|
    ensures k < |s| ==> s[k] == c
    ensures forall i :: 0 <= i < k ==> s[i] != c
  {
    if s == [] || s[0] == c then 0 else 1 + FindByte(s[1..], c)
  }

  lemma FindByteAt(s: string, c: char, k: nat)
    requires k < |s| && s[k] == c && forall i :: 0 <= i < k ==> s[i] != c
    ensures FindByte(s, c) == k
  {
    assert s[FindByte(s, c)] == c || FindByte(s, c) == |s|;
  }

  ghost predicate Trimmed(s: string) {
    s == [] || (!IsSpace(s[0]) && !IsSpace(s[|s| - 1]))
  }

  lemma {:induction false} TrimRightKeepsHead(s: string)
    requires s != [] && !IsSpace(s[0])
    ensures TrimRight(s) != [] && TrimRight(s)[0] == s[0]
    ensures !IsSpace(TrimRight(s)[|TrimRight(s)| - 1])
  {
    if IsSpace(s[|s| - 1]) {
      TrimRightKeepsHead(s[..|s| - 1]);
    }
  }

  lemma {:induction false} TrimLeftHead(s: string)
    ensures TrimLeft(s) == [] || !IsSpace(TrimLeft(s)[0])
  {
    if s != [] && IsSpace(s[0]) {
      TrimLeftHead(s[1..]);
    }
  }

  lemma TrimSpaceTrims(s: string)
    ensures Trimmed(TrimSpace(s))
    ensures Trimmed(s) ==> TrimSpace(s) == s
  {
    TrimLeftHead(s);
    if TrimLeft(s) != [] {
      TrimRightKeepsHead(TrimLeft(s));
    }
  }

  lemma LowerOfTrimmed(s: string)
    ensures Trimmed(s) ==> Trimmed(ToLower(s))
    ensures ToLower(ToLower(s)) == ToLower(s)
  {}

  /** Blank space goes from both ends, and nothing else. */
  lemma {:induction false} TrimLeftExact(s: string) returns (i: nat)
    ensures i <= |s| && TrimLeft(s) == s[i..]
    ensures forall k :: 0 <= k < i ==> s[k] in " \t\n\r\U{0B}\U{0C}"
    ensures i < |s| ==> s[i] !in " \t\n\r\U{0B}\U{0C}"
  {
    if s != [] && IsSpace(s[0]) {
      i := TrimLeftExact(s[1..]);
      i := i + 1;
    } else {
      i := 0;
    }
  }

  lemma {:induction false} TrimRightExact(s: string) returns (j: nat)
    ensures j <= |s| && TrimRight(s) == s[..j]
    ensures forall k :: j <= k < |s| ==> s[k] in " \t\n\r\U{0B}\U{0C}"
    ensures j > 0 ==> s[j - 1] !in " \t\n\r\U{0B}\U{0C}"
  {
    if s != [] && IsSpace(s[|s| - 1]) {
      j := TrimRightExact(s[..|s| - 1]);
    } else {
      j := |s|;
    }
  }

  lemma TrimSpaceExact(s: string) returns (i: nat, j: nat)
    ensures i <= j <= |s| && TrimSpace(s) == s[i..j]
    ensures forall k :: 0 <= k < i || j <= k < |s| ==> s[k] in " \t\n\r\U{0B}\U{0C}"
    ensures i < j ==> s[i] !in " \t\n\r\U{0B}\U{0C}" && s[j - 1] !in " \t\n\r\U{0B}\U{0C}"
  {
    i := TrimLeftExact(s);
    var n := TrimRightExact(TrimLeft(s));
    j := i + n;
    hide TrimLeft, TrimRight;
  }

  /** Lower case, byte by byte. */
  lemma ToLowerExact(s: string, k: nat)
    requires k < |s|
    ensures |ToLower(s)| == |s|
    ensures ToLower(s)[k] as int == if 65 <= s[k] as int <= 90 then s[k] as int + 32 else s[k] as int
  {}
}
