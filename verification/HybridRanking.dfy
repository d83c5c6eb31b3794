/** Merging and ranking of lexical and semantic search matches (handlers_retrieval.go).
    Scores are exact reals: floating-point rounding is not modelled. */
module HybridRanking {
  import opened Common

  datatype Candidate = Candidate(file: string, line: int, text: string, before: seq<string>, after: seq<string>,
                                 lexical: real, semantic: real, hybrid: real)

  /** `searchTextCandidateKey` joins file and line by a NUL byte that no number contains, so
      the key is the pair. */
  datatype Key = Key(file: string, line: int)

  type Scores = map<Key, real>

  function KeyOf(c: Candidate): Key {
    Key(c.file, c.line)
  }

  function ScoreAt(scores: Scores, k: Key): real {
    if k in scores then scores[k] else 0.0
  }

  // ----- what merging keeps -----

  /** The first of the values listed under the key that is not empty. */
  function FirstText(cs: seq<Candidate>, k: Key): string {
    if cs == [] then ""
    else if KeyOf(cs[0]) == k && cs[0].text != "" then cs[0].text
    else FirstText(cs[1..], k)
  }

  function FirstContext(cs: seq<Candidate>, k: Key, after: bool): seq<string> {
    if cs == [] then []
    else
      var context := if after then cs[0].after else cs[0].before;
      if KeyOf(cs[0]) == k && context != [] then context else FirstContext(cs[1..], k, after)
  }

  /** The candidates mention the key. */
  ghost predicate Mentions(cs: seq<Candidate>, k: Key) {
    exists i :: 0 <= i < |cs| && KeyOf(cs[i]) == k
  }

  function Score(c: Candidate, semantic: bool): real {
    if semantic then c.semantic else c.lexical
  }

  /** `scores` holds, for every key, the highest positive score of the candidates under it. */
  ghost predicate BestScores(cs: seq<Candidate>, semantic: bool, scores: Scores) {
    (forall i :: 0 <= i < |cs| && Score(cs[i], semantic) > 0.0
      ==> KeyOf(cs[i]) in scores && Score(cs[i], semantic) <= scores[KeyOf(cs[i])])
    && (forall k :: k in scores ==> Attained(cs, semantic, k, scores[k]))
  }

  ghost predicate Attained(cs: seq<Candidate>, semantic: bool, k: Key, score: real) {
    score > 0.0 && exists i :: 0 <= i < |cs| && KeyOf(cs[i]) == k && Score(cs[i], semantic) == score
  }

  /** The text and context of every merged entry are the first found, lexical matches first. */
  ghost predicate Merged(cs: seq<Candidate>, merged: map<Key, Candidate>) {
    (forall k :: k in merged <==> Mentions(cs, k))
    && forall k :: k in merged ==> MergedEntry(cs, k, merged[k])
  }

  ghost predicate MergedEntry(cs: seq<Candidate>, k: Key, c: Candidate) {
    KeyOf(c) == k && c.text == FirstText(cs, k)
    && c.before == FirstContext(cs, k, false) && c.after == FirstContext(cs, k, true)
  }

  lemma {:induction false} FirstAppend(cs: seq<Candidate>, c: Candidate, k: Key)
    ensures FirstText(cs + [c], k)
         == if KeyOf(c) == k && FirstText(cs, k) == "" then c.text else FirstText(cs, k)
    ensures FirstContext(cs + [c], k, false)
         == if KeyOf(c) == k && FirstContext(cs, k, false) == [] then c.before else FirstContext(cs, k, false)
    ensures FirstContext(cs + [c], k, true)
         == if KeyOf(c) == k && FirstContext(cs, k, true) == [] then c.after else FirstContext(cs, k, true)
  {
    if cs == [] {
      assert [c][1..] == [];
    } else {
      assert (cs + [c])[1..] == cs[1..] + [c];
      FirstAppend(cs[1..], c, k);
    }
  }

  lemma {:induction false} FirstOfNone(cs: seq<Candidate>, k: Key)
    requires !Mentions(cs, k)
    ensures FirstText(cs, k) == "" && FirstContext(cs, k, false) == [] && FirstContext(cs, k, true) == []
  {
    if cs != [] {
      forall i | 0 <= i < |cs[1..]| ensures KeyOf(cs[1..][i]) != k { assert cs[1..][i] == cs[i + 1]; }
      FirstOfNone(cs[1..], k);
    }
  }

  lemma MentionsAppend(cs: seq<Candidate>, c: Candidate, k: Key)
    ensures Mentions(cs + [c], k) <==> Mentions(cs, k) || KeyOf(c) == k
  {
    assert (cs + [c])[|cs|] == c;
    if Mentions(cs, k) {
      var i :| 0 <= i < |cs| && KeyOf(cs[i]) == k;
      assert (cs + [c])[i] == cs[i];
    }
  }

  /** The highest positive score of every key. */
  function Best(cs: seq<Candidate>, semantic: bool): Scores {
    if cs == [] then map[] else RaiseScore(Best(cs[..|cs| - 1], semantic), cs[|cs| - 1], semantic)
  }

  function RaiseScore(scores: Scores, c: Candidate, semantic: bool): Scores {
    if Score(c, semantic) > ScoreAt(scores, KeyOf(c)) then scores[KeyOf(c) := Score(c, semantic)] else scores
  }

  lemma {:induction false} BestIsBest(cs: seq<Candidate>, semantic: bool)
    ensures BestScores(cs, semantic, Best(cs, semantic))
  {
    if cs != [] {
      var n := |cs| - 1;
      BestIsBest(cs[..n], semantic);
      var scores := Best(cs, semantic);
      forall k | k in scores ensures Attained(cs, semantic, k, scores[k]) {
        if k in Best(cs[..n], semantic) {
          assert Attained(cs[..n], semantic, k, Best(cs[..n], semantic)[k]);
          var i :| 0 <= i < n && KeyOf(cs[..n][i]) == k && Score(cs[..n][i], semantic) == Best(cs[..n], semantic)[k];
          assert KeyOf(cs[i]) == k && Score(cs[i], semantic) == Best(cs[..n], semantic)[k];
        }
        assert k == KeyOf(cs[n]) || k in Best(cs[..n], semantic);
      }
      forall i | 0 <= i < |cs| && Score(cs[i], semantic) > 0.0
        ensures KeyOf(cs[i]) in scores && Score(cs[i], semantic) <= scores[KeyOf(cs[i])]
      {
        if i < n { assert cs[..n][i] == cs[i]; }
      }
    }
  }

  /** One of the two merge loops of `rankHybridSearchTextCandidates`: the first merges the
      lexical matches into nothing, the second the semantic matches into what the first left. */
  method MergeMatches(ghost earlier: seq<Candidate>, known: map<Key, Candidate>, cs: seq<Candidate>, semantic: bool)
    returns (merged: map<Key, Candidate>, scores: Scores)
    requires Merged(earlier, known)
    ensures Merged(earlier + cs, merged) && scores == Best(cs, semantic)
  {
    merged, scores := known, map[];
    assert earlier + cs[..0] == earlier;
    for i := 0 to |cs|
      invariant Merged(earlier + cs[..i], merged) && scores == Best(cs[..i], semantic)
    {
      var candidate := cs[i];
      var key := KeyOf(candidate);
      ghost var before := earlier + cs[..i];
      assert earlier + cs[..i + 1] == before + [candidate];
      assert cs[..i + 1][..i] == cs[..i];
      var existing := if key in merged then merged[key] else candidate;
      if Score(candidate, semantic) > ScoreAt(scores, key) {
        scores := scores[key := Score(candidate, semantic)];
        existing := if semantic then existing.(semantic := candidate.semantic) else existing.(lexical := candidate.lexical);
      }
      if existing.text == "" {
        existing := existing.(text := candidate.text);
      }
      if existing.before == [] && candidate.before != [] {
        existing := existing.(before := candidate.before);
      }
      if existing.after == [] && candidate.after != [] {
        existing := existing.(after := candidate.after);
      }
      MergeOne(before, merged, candidate, existing);
      merged := merged[key := existing];
    }
    assert cs[..|cs|] == cs;
  }

  lemma MergeOne(cs: seq<Candidate>, merged: map<Key, Candidate>, c: Candidate, entry: Candidate)
    requires Merged(cs, merged) && KeyOf(entry) == KeyOf(c)
    requires var old' := if KeyOf(c) in merged then merged[KeyOf(c)] else c;
      entry.text == (if old'.text == "" then c.text else old'.text)
      && entry.before == (if old'.before == [] then c.before else old'.before)
      && entry.after == (if old'.after == [] then c.after else old'.after)
    ensures Merged(cs + [c], merged[KeyOf(c) := entry])
  {
    forall k ensures Mentions(cs + [c], k) <==> Mentions(cs, k) || KeyOf(c) == k {
      MentionsAppend(cs, c, k);
    }
    forall k | Mentions(cs + [c], k) ensures MergedEntry(cs + [c], k, merged[KeyOf(c) := entry][k]) {
      FirstAppend(cs, c, k);
      if !Mentions(cs, k) { FirstOfNone(cs, k); }
    }
  }

  // ----- normalized scores -----

  ghost predicate Extreme(scores: Scores, m: real, highest: bool) {
    (exists k :: k in scores && scores[k] == m)
    && forall k :: k in scores ==> if highest then scores[k] <= m else m <= scores[k]
  }

  lemma ExtremeUnique(scores: Scores, a: real, b: real, highest: bool)
    requires Extreme(scores, a, highest) && Extreme(scores, b, highest)
    ensures a == b
  {}

  lemma {:induction false} ExtremeExists(scores: Scores, highest: bool)
    requires scores != map[]
    ensures exists m :: Extreme(scores, m, highest)
    decreases |scores|
  {
    var k :| k in scores;
    var rest := scores - {k};
    if rest == map[] {
      assert scores.Keys == {k} by {
        forall x | x in scores ensures x == k { assert x != k ==> x in rest; }
      }
      assert Extreme(scores, scores[k], highest);
    } else {
      ExtremeExists(rest, highest);
      var n :| Extreme(rest, n, highest);
      var m := if highest then (if n < scores[k] then scores[k] else n) else (if scores[k] < n then scores[k] else n);
      forall x | x in scores ensures if highest then scores[x] <= m else m <= scores[x] {
        assert x != k ==> x in rest;
      }
      assert Extreme(scores, m, highest);
    }
  }

  ghost function ExtremeOf(scores: Scores, highest: bool): (m: real)
    ensures scores != map[] ==> Extreme(scores, m, highest)
  {
    if scores == map[] then 0.0
    else
      ExtremeExists(scores, highest);
      var m :| Extreme(scores, m, highest);
      m
  }

  /** Scores stretched onto [0, 1]; equal scores all become 1. */
  ghost function Normalized(scores: Scores): Scores {
    var lo, hi := ExtremeOf(scores, false), ExtremeOf(scores, true);
    map k | k in scores :: if hi == lo then 1.0 else (scores[k] - lo) / (hi - lo)
  }

  /** `normalizeSearchTextScores` */
  method NormalizeScores(scores: Scores) returns (normalized: Scores)
    ensures normalized == Normalized(scores)
  {
    if scores == map[] {
      return map[];
    }
    var keys := scores.Keys;
    var first :| first in keys;
    var minScore, maxScore := scores[first], scores[first];
    while keys != {}
      invariant keys <= scores.Keys
      invariant exists k :: k in scores && scores[k] == minScore
      invariant exists k :: k in scores && scores[k] == maxScore
      invariant forall k :: k in scores && k !in keys ==> minScore <= scores[k] <= maxScore
    {
      var k :| k in keys;
      keys := keys - {k};
      if scores[k] < minScore {
        minScore := scores[k];
      }
      if scores[k] > maxScore {
        maxScore := scores[k];
      }
    }
    ExtremeUnique(scores, minScore, ExtremeOf(scores, false), false);
    ExtremeUnique(scores, maxScore, ExtremeOf(scores, true), true);
    if maxScore == minScore {
      return map k | k in scores :: 1.0;
    }
    var denominator := maxScore - minScore;
    normalized := map k | k in scores :: (scores[k] - minScore) / denominator;
  }

  lemma QuotientBetween(x: real, y: real)
    requires 0.0 <= x <= y && 0.0 < y
    ensures 0.0 <= x / y <= 1.0
  {}

  lemma QuotientSum(x: real, y: real, d: real)
    requires 0.0 < d
    ensures x / d + y / d == (x + y) / d
    ensures d / d == 1.0
  {}

  /** Normalized scores lie in [0, 1], the best match has 1, and order is kept. */
  lemma NormalizedRange(scores: Scores)
    ensures Normalized(scores).Keys == scores.Keys
    ensures forall k :: k in scores ==> 0.0 <= Normalized(scores)[k] <= 1.0
    ensures forall k :: k in scores && scores[k] == ExtremeOf(scores, true) ==> Normalized(scores)[k] == 1.0
    ensures forall j, k :: j in scores && k in scores && scores[j] < scores[k]
              ==> Normalized(scores)[j] < Normalized(scores)[k]
  {
    var lo, hi := ExtremeOf(scores, false), ExtremeOf(scores, true);
    forall k | k in scores ensures 0.0 <= Normalized(scores)[k] <= 1.0 {
      if hi != lo { QuotientBetween(scores[k] - lo, hi - lo); }
    }
    if hi != lo { QuotientSum(0.0, 0.0, hi - lo); }
    forall j, k | j in scores && k in scores && scores[j] < scores[k]
      ensures Normalized(scores)[j] < Normalized(scores)[k]
    {
      QuotientOrder(scores[j] - lo, scores[k] - lo, hi - lo);
    }
  }

  /** In between, normalizing is linear. */
  lemma NormalizedLinear(scores: Scores, k: Key)
    requires k in scores
    ensures var lo, hi := ExtremeOf(scores, false), ExtremeOf(scores, true);
      hi != lo ==> Normalized(scores)[k] * (hi - lo) == scores[k] - lo
  {
    var lo, hi := ExtremeOf(scores, false), ExtremeOf(scores, true);
    if hi != lo { QuotientTimes(scores[k] - lo, hi - lo); }
  }

  lemma QuotientOrder(x: real, y: real, d: real)
    requires x < y && 0.0 < d
    ensures x / d < y / d
  {
    assert y / d - x / d == (y - x) / d;
  }

  // ----- weights -----

  /** `resolveSearchTextHybridWeights`: configured weights, non-negative overrides, and a
      pair that sums to one. */
  function ResolveWeights(lexical: real, semantic: real, lexicalArg: Option<real>, semanticArg: Option<real>)
    : (w: (real, real))
  {
    var l := if lexicalArg.Some? && lexicalArg.value >= 0.0 then lexicalArg.value else lexical;
    var s := if semanticArg.Some? && semanticArg.value >= 0.0 then semanticArg.value else semantic;
    var (l', s') := if l == 0.0 && s == 0.0 then (0.5, 0.5) else (l, s);
    if l' + s' <= 0.0 then (0.5, 0.5) else (l' / (l' + s'), s' / (l' + s'))
  }

  /** The weights sum to one whatever is configured; weights that are configured without a
      sign, which is all the configuration loader accepts, stay within [0, 1]. */
  lemma WeightsSumToOne(lexical: real, semantic: real, lexicalArg: Option<real>, semanticArg: Option<real>)
    ensures var w := ResolveWeights(lexical, semantic, lexicalArg, semanticArg);
      w.0 + w.1 == 1.0 && (lexical >= 0.0 && semantic >= 0.0 ==> 0.0 <= w.0 <= 1.0 && 0.0 <= w.1 <= 1.0)
  {
    var l := if lexicalArg.Some? && lexicalArg.value >= 0.0 then lexicalArg.value else lexical;
    var s := if semanticArg.Some? && semanticArg.value >= 0.0 then semanticArg.value else semantic;
    if l + s > 0.0 {
      Shares(l, s);
    }
  }

  /** The weights are the given ones in proportion: an argument that is not negative before the
      configuration, and even ones when the two do not add up to anything. */
  lemma WeightsExact(lexical: real, semantic: real, lexicalArg: Option<real>, semanticArg: Option<real>, l: real, s: real)
    requires if lexicalArg.Some? && lexicalArg.value >= 0.0 then l == lexicalArg.value else l == lexical
    requires if semanticArg.Some? && semanticArg.value >= 0.0 then s == semanticArg.value else s == semantic
    ensures var w := ResolveWeights(lexical, semantic, lexicalArg, semanticArg);
      if l + s > 0.0 then w.0 * (l + s) == l && w.1 * (l + s) == s else w == (0.5, 0.5)
  {
    if l + s > 0.0 {
      QuotientTimes(l, l + s);
      QuotientTimes(s, l + s);
    }
  }

  lemma QuotientTimes(x: real, d: real)
    requires d != 0.0
    ensures (x / d) * d == x
  {}

  lemma Shares(l: real, s: real)
    requires l + s > 0.0
    ensures l / (l + s) + s / (l + s) == 1.0
    ensures l >= 0.0 && s >= 0.0 ==> 0.0 <= l / (l + s) <= 1.0 && 0.0 <= s / (l + s) <= 1.0
  {
    QuotientSum(l, s, l + s);
    if l >= 0.0 && s >= 0.0 {
      QuotientBetween(l, l + s);
      QuotientBetween(s, l + s);
    }
  }

  function Hybrid(wl: real, ws: real, l: real, s: real): real {
    wl * l + ws * s
  }

  lemma HybridAt(wl: real, ws: real, l: real, s: real)
    requires wl >= 0.0 && ws >= 0.0 && 0.0 <= l <= 1.0 && 0.0 <= s <= 1.0
    ensures 0.0 <= Hybrid(wl, ws, l, s) <= wl + ws
  {
    var x, y := wl * l, ws * s;
    Scaled(wl, l);
    Scaled(ws, s);
    assert x <= wl && y <= ws;
    assert Hybrid(wl, ws, l, s) == x + y;
  }

  lemma HybridEnds(wl: real, ws: real)
    ensures Hybrid(wl, ws, 1.0, 0.0) == wl && Hybrid(wl, ws, 0.0, 1.0) == ws
  {}

  /** For weights that sum to one, hybrid scores of normalized scores stay within [0, 1]
      exactly when neither weight is negative. */
  lemma HybridRange(wl: real, ws: real)
    requires wl + ws == 1.0
    ensures (forall l, s :: 0.0 <= l <= 1.0 && 0.0 <= s <= 1.0 ==> 0.0 <= Hybrid(wl, ws, l, s) <= 1.0)
       <==> wl >= 0.0 && ws >= 0.0
  {
    hide Hybrid;
    HybridEnds(wl, ws);
    if wl >= 0.0 && ws >= 0.0 {
      forall l: real, s: real | 0.0 <= l <= 1.0 && 0.0 <= s <= 1.0 ensures 0.0 <= Hybrid(wl, ws, l, s) <= 1.0 {
        HybridAt(wl, ws, l, s);
      }
    }
  }

  lemma Scaled(w: real, x: real)
    requires w >= 0.0 && 0.0 <= x <= 1.0
    ensures 0.0 <= w * x <= w
  {}

  // ----- ranking -----

  /** The comparison given to the sort: scores downwards, then file, line and text. */
  predicate Precedes(a: Candidate, b: Candidate, wl: real, ws: real) {
    if a.hybrid != b.hybrid then a.hybrid > b.hybrid
    else if wl > 0.0 && a.lexical != b.lexical then a.lexical > b.lexical
    else if ws > 0.0 && a.semantic != b.semantic then a.semantic > b.semantic
    else if a.file != b.file then StrLess(a.file, b.file)
    else if a.line != b.line then a.line < b.line
    else StrLess(a.text, b.text)
  }

  /** On candidates of distinct places the comparison is a strict total order. */
  lemma PrecedesOrders(a: Candidate, b: Candidate, c: Candidate, wl: real, ws: real)
    ensures KeyOf(a) != KeyOf(b) ==> Precedes(a, b, wl, ws) || Precedes(b, a, wl, ws)
    ensures !(Precedes(a, b, wl, ws) && Precedes(b, a, wl, ws))
    ensures Precedes(a, b, wl, ws) && Precedes(b, c, wl, ws) ==> Precedes(a, c, wl, ws)
  {
    StrLessTotal(a.file, b.file);
    StrLessTotal(a.text, b.text);
    StrLessTotal(b.file, c.file);
    StrLessTotal(a.file, c.file);
    if StrLess(a.file, b.file) && StrLess(b.file, c.file) { StrLessTransitive(a.file, b.file, c.file); }
    if StrLess(a.text, b.text) && StrLess(b.text, c.text) { StrLessTransitive(a.text, b.text, c.text); }
  }

  ghost predicate Ranked(out: seq<Candidate>, wl: real, ws: real) {
    forall i, j :: 0 <= i < j < |out| ==> Precedes(out[i], out[j], wl, ws)
  }

  /** What the ranking says about one place. */
  ghost function Entry(lexical: seq<Candidate>, semantic: seq<Candidate>, k: Key, wl: real, ws: real): (c: Candidate)
    ensures KeyOf(c) == k
  {
    var all := lexical + semantic;
    var l := ScoreAt(Normalized(Best(lexical, false)), k);
    var s := ScoreAt(Normalized(Best(semantic, true)), k);
    Candidate(k.file, k.line, FirstText(all, k), FirstContext(all, k, false), FirstContext(all, k, true),
              l, s, Hybrid(wl, ws, l, s))
  }

  /** The ranked result: one entry for every place mentioned, best first. */
  ghost predicate IsRanking(lexical: seq<Candidate>, semantic: seq<Candidate>, wl: real, ws: real,
                            out: seq<Candidate>)
  {
    Ranked(out, wl, ws)
    && forall c :: c in out
         <==> Mentions(lexical + semantic, KeyOf(c)) && c == Entry(lexical, semantic, KeyOf(c), wl, ws)
  }

  method InsertRanked(s: seq<Candidate>, x: Candidate, wl: real, ws: real) returns (t: seq<Candidate>)
    requires Ranked(s, wl, ws)
    requires forall i :: 0 <= i < |s| ==> KeyOf(s[i]) != KeyOf(x)
    ensures Ranked(t, wl, ws)
    ensures forall c :: c in t <==> c in s || c == x
  {
    hide Precedes;
    var k := 0;
    while k < |s| && Precedes(s[k], x, wl, ws)
      invariant 0 <= k <= |s|
      invariant forall i :: 0 <= i < k ==> Precedes(s[i], x, wl, ws)
    {
      k := k + 1;
    }
    t := s[..k] + [x] + s[k..];
    assert s == s[..k] + s[k..];
    forall i | k <= i < |s| ensures Precedes(x, s[i], wl, ws) {
      PrecedesOrders(x, s[k], s[i], wl, ws);
    }
  }

  /** `rankHybridSearchTextCandidates`; the merged map is drained in any order. */
  method RankCandidates(lexical: seq<Candidate>, semantic: seq<Candidate>, lexicalWeight: real, semanticWeight: real)
    returns (out: seq<Candidate>)
    ensures IsRanking(lexical, semantic, lexicalWeight, semanticWeight, out)
  {
    hide Precedes, Normalized, Best, FirstText, FirstContext, Ranked, Mentions;
    NothingMerged();
    var merged, lexicalScores := MergeMatches([], map[], lexical, false);
    var semanticScores;
    assert [] + lexical == lexical;
    merged, semanticScores := MergeMatches(lexical, merged, semantic, true);
    var normalizedLexical := NormalizeScores(lexicalScores);
    var normalizedSemantic := NormalizeScores(semanticScores);
    out := [];
    var keys := merged.Keys;
    RankedEmpty(lexicalWeight, semanticWeight);
    while keys != {}
      invariant keys <= merged.Keys && Ranked(out, lexicalWeight, semanticWeight)
      invariant forall c :: c in out <==>
                  KeyOf(c) in merged && KeyOf(c) !in keys && c == Entry(lexical, semantic, KeyOf(c), lexicalWeight, semanticWeight)
    {
      var key :| key in keys;
      keys := keys - {key};
      var candidate := merged[key];
      var l, s := ScoreAt(normalizedLexical, key), ScoreAt(normalizedSemantic, key);
      candidate := candidate.(lexical := l, semantic := s, hybrid := Hybrid(lexicalWeight, semanticWeight, l, s));
      assert MergedEntry(lexical + semantic, key, merged[key]);
      assert candidate == Entry(lexical, semantic, key, lexicalWeight, semanticWeight);
      forall i | 0 <= i < |out| ensures KeyOf(out[i]) != key { assert out[i] in out; }
      out := InsertRanked(out, candidate, lexicalWeight, semanticWeight);
    }
  }

  lemma NothingMerged()
    ensures Merged([], map[])
  {}

  lemma RankedEmpty(wl: real, ws: real)
    ensures Ranked([], wl, ws)
  {}

  /** One entry per place, and only places that some match names. */
  lemma RankingPlaces(lexical: seq<Candidate>, semantic: seq<Candidate>, wl: real, ws: real, out: seq<Candidate>)
    requires IsRanking(lexical, semantic, wl, ws, out)
    ensures forall i, j :: 0 <= i < j < |out| ==> KeyOf(out[i]) != KeyOf(out[j])
    ensures forall k :: Mentions(lexical + semantic, k) <==> Mentions(out, k)
  {
    forall i, j | 0 <= i < j < |out| ensures KeyOf(out[i]) != KeyOf(out[j]) {
      assert out[i] in out && out[j] in out;
      PrecedesOrders(out[i], out[j], out[j], wl, ws);
    }
    forall k ensures Mentions(lexical + semantic, k) <==> Mentions(out, k) {
      if Mentions(lexical + semantic, k) {
        assert Entry(lexical, semantic, k, wl, ws) in out;
      }
      if Mentions(out, k) {
        var i :| 0 <= i < |out| && KeyOf(out[i]) == k;
        assert out[i] in out;
      }
    }
  }

  /** A ranking goes down by hybrid score; equal ones by the lexical and the semantic score, as far
      as these have a weight; then up by file and line. */
  lemma RankingOrder(lexical: seq<Candidate>, semantic: seq<Candidate>, wl: real, ws: real, out: seq<Candidate>, i: nat, j: nat)
    requires IsRanking(lexical, semantic, wl, ws, out) && i < j < |out|
    ensures var a, b := out[i], out[j];
      a.hybrid > b.hybrid
      || (a.hybrid == b.hybrid
          && (wl > 0.0 ==> a.lexical >= b.lexical)
          && ((wl > 0.0 ==> a.lexical == b.lexical) ==>
                (ws > 0.0 ==> a.semantic >= b.semantic)
                && ((ws > 0.0 ==> a.semantic == b.semantic) ==>
                      if a.file == b.file then a.line < b.line else StrLess(a.file, b.file))))
  {
    RankingPlaces(lexical, semantic, wl, ws, out);
    assert Precedes(out[i], out[j], wl, ws);
  }

  /** The scores of a place: weighted, where the best match of its kind has 1 and a place without a
      positive match 0. */
  lemma RankingEntry(lexical: seq<Candidate>, semantic: seq<Candidate>, wl: real, ws: real, out: seq<Candidate>, c: Candidate)
    requires IsRanking(lexical, semantic, wl, ws, out) && c in out
    ensures c.hybrid == wl * c.lexical + ws * c.semantic
    ensures (forall m :: m in lexical && m.file == c.file && m.line == c.line ==> m.lexical <= 0.0) ==> c.lexical == 0.0
    ensures (forall m :: m in semantic && m.file == c.file && m.line == c.line ==> m.semantic <= 0.0) ==> c.semantic == 0.0
    ensures forall m :: m in lexical && m.file == c.file && m.line == c.line && IsBest(lexical, m, false) ==> c.lexical == 1.0
    ensures forall m :: m in semantic && m.file == c.file && m.line == c.line && IsBest(semantic, m, true) ==> c.semantic == 1.0
  {
    var k := KeyOf(c);
    EntryScores(lexical, semantic, wl, ws, out, c);
    HybridIs(wl, ws, c.lexical, c.semantic);
    hide IsRanking, Best, Normalized, ScoreAt, IsBest, Hybrid;
    NoPositive(lexical, false, k);
    NoPositive(semantic, true, k);
    forall m | m in lexical && KeyOf(m) == k && IsBest(lexical, m, false) ensures c.lexical == 1.0 {
      BestHasOne(lexical, false, m);
    }
    forall m | m in semantic && KeyOf(m) == k && IsBest(semantic, m, true) ensures c.semantic == 1.0 {
      BestHasOne(semantic, true, m);
    }
  }

  /** A match with a positive score that no other of its kind exceeds. */
  ghost predicate IsBest(cs: seq<Candidate>, m: Candidate, semantic: bool) {
    if semantic then m.semantic > 0.0 && forall n :: n in cs ==> n.semantic <= m.semantic
    else m.lexical > 0.0 && forall n :: n in cs ==> n.lexical <= m.lexical
  }

  lemma EntryScores(lexical: seq<Candidate>, semantic: seq<Candidate>, wl: real, ws: real, out: seq<Candidate>, c: Candidate)
    requires IsRanking(lexical, semantic, wl, ws, out) && c in out
    ensures c.lexical == ScoreAt(Normalized(Best(lexical, false)), KeyOf(c))
    ensures c.semantic == ScoreAt(Normalized(Best(semantic, true)), KeyOf(c))
    ensures c.hybrid == Hybrid(wl, ws, c.lexical, c.semantic)
  {
    hide Hybrid, Best, Normalized, ScoreAt, FirstText, FirstContext, Ranked, Mentions;
    assert c == Entry(lexical, semantic, KeyOf(c), wl, ws);
  }

  lemma HybridIs(wl: real, ws: real, l: real, s: real)
    ensures Hybrid(wl, ws, l, s) == wl * l + ws * s
  {}

  lemma NoPositive(cs: seq<Candidate>, semantic: bool, k: Key)
    ensures (forall m :: m in cs && m.file == k.file && m.line == k.line ==> (if semantic then m.semantic else m.lexical) <= 0.0)
        ==> ScoreAt(Normalized(Best(cs, semantic)), k) == 0.0
  {
    hide Best, Normalized;
    BestIsBest(cs, semantic);
    NormalizedRange(Best(cs, semantic));
    if k in Best(cs, semantic) { assert Attained(cs, semantic, k, Best(cs, semantic)[k]); }
  }

  lemma BestHasOne(cs: seq<Candidate>, semantic: bool, m: Candidate)
    requires m in cs && IsBest(cs, m, semantic)
    ensures ScoreAt(Normalized(Best(cs, semantic)), KeyOf(m)) == 1.0
  {
    hide Best, Normalized;
    var scores := Best(cs, semantic);
    BestIsBest(cs, semantic);
    NormalizedRange(scores);
    forall j | j in scores ensures scores[j] <= Score(m, semantic) {
      assert Attained(cs, semantic, j, scores[j]);
    }
    assert KeyOf(m) in scores && scores[KeyOf(m)] == Score(m, semantic);
    ExtremeUnique(scores, scores[KeyOf(m)], ExtremeOf(scores, true), true);
  }

  /** The text and the context of a place are the first found, lexical matches first. */
  lemma RankingContext(lexical: seq<Candidate>, semantic: seq<Candidate>, wl: real, ws: real, out: seq<Candidate>,
                       c: Candidate, i: nat)
    requires IsRanking(lexical, semantic, wl, ws, out) && c in out
    requires i < |lexical + semantic| && KeyOf((lexical + semantic)[i]) == KeyOf(c)
    ensures var all := lexical + semantic;
      (all[i].text != "" && (forall j :: 0 <= j < i && all[j].file == c.file && all[j].line == c.line ==> all[j].text == "")
       ==> c.text == all[i].text)
      && (all[i].before != []
          && (forall j :: 0 <= j < i && all[j].file == c.file && all[j].line == c.line ==> all[j].before == [])
          ==> c.before == all[i].before)
      && (all[i].after != []
          && (forall j :: 0 <= j < i && all[j].file == c.file && all[j].line == c.line ==> all[j].after == [])
          ==> c.after == all[i].after)
  {
    assert c == Entry(lexical, semantic, KeyOf(c), wl, ws);
    var all := lexical + semantic;
    FirstTextAt(all, KeyOf(c), i);
    FirstContextAt(all, KeyOf(c), i, false);
    FirstContextAt(all, KeyOf(c), i, true);
    hide Normalized, Best, FirstText, FirstContext, IsRanking;
  }

  lemma {:induction false} FirstContextAt(cs: seq<Candidate>, k: Key, i: nat, after: bool)
    requires i < |cs| && KeyOf(cs[i]) == k
    ensures (if after then cs[i].after else cs[i].before) != []
            && (forall j :: 0 <= j < i && KeyOf(cs[j]) == k ==> (if after then cs[j].after else cs[j].before) == [])
        ==> FirstContext(cs, k, after) == if after then cs[i].after else cs[i].before
  {
    if i > 0 { FirstContextAt(cs[1..], k, i - 1, after); }
  }

  lemma {:induction false} FirstTextAt(cs: seq<Candidate>, k: Key, i: nat)
    requires i < |cs| && KeyOf(cs[i]) == k
    ensures cs[i].text != "" && (forall j :: 0 <= j < i && KeyOf(cs[j]) == k ==> cs[j].text == "")
        ==> FirstText(cs, k) == cs[i].text
  {
    if i > 0 { FirstTextAt(cs[1..], k, i - 1); }
  }

  /** The matches determine the ranking, entry for entry: map iteration order cannot show. */
  lemma RankingUnique(lexical: seq<Candidate>, semantic: seq<Candidate>, wl: real, ws: real,
                      a: seq<Candidate>, b: seq<Candidate>)
    requires IsRanking(lexical, semantic, wl, ws, a) && IsRanking(lexical, semantic, wl, ws, b)
    ensures a == b
  {
    hide Precedes;
    forall c ensures c in a <==> c in b {}
    RankedUnique(a, b, wl, ws);
  }

  lemma {:induction false} RankedUnique(a: seq<Candidate>, b: seq<Candidate>, wl: real, ws: real)
    requires Ranked(a, wl, ws) && Ranked(b, wl, ws)
    requires forall c :: c in a <==> c in b
    ensures a == b
  {
    assert (a != [] ==> a[0] in a) && (b != [] ==> b[0] in b);
    if a != [] && b != [] {
      RankedHead(a, b, wl, ws);
      RankedTail(a, wl, ws);
      RankedTail(b, wl, ws);
      RankedUnique(a[1..], b[1..], wl, ws);
      assert a == [a[0]] + a[1..] && b == [b[0]] + b[1..];
    }
  }

  lemma RankedHead(a: seq<Candidate>, b: seq<Candidate>, wl: real, ws: real)
    requires Ranked(a, wl, ws) && Ranked(b, wl, ws) && a != [] && b != []
    requires forall c :: c in a <==> c in b
    ensures a[0] == b[0]
  {
    assert a[0] in b && b[0] in a by { assert a[0] in a && b[0] in b; }
    PrecedesOrders(a[0], b[0], b[0], wl, ws);
  }

  lemma RankedTail(a: seq<Candidate>, wl: real, ws: real)
    requires Ranked(a, wl, ws) && a != []
    ensures Ranked(a[1..], wl, ws)
    ensures forall c :: c in a[1..] <==> c in a && c != a[0]
  {
    forall c ensures c in a[1..] <==> c in a && c != a[0] {
      if c in a[1..] {
        var i :| 0 <= i < |a[1..]| && a[1..][i] == c;
        assert a[i + 1] == c;
        PrecedesOrders(a[0], c, c, wl, ws);
      }
      if c in a && c != a[0] {
        var i :| 0 <= i < |a| && a[i] == c;
        assert a[1..][i - 1] == c;
      }
    }
  }

  predicate ScoresInRange(c: Candidate) {
    0.0 <= c.lexical <= 1.0 && 0.0 <= c.semantic <= 1.0 && 0.0 <= c.hybrid <= 1.0
  }

  /** With the weights the program resolves from a valid configuration, every score of a
      ranking lies in [0, 1]. */
  lemma RankingScores(lexical: seq<Candidate>, semantic: seq<Candidate>, cfgL: real, cfgS: real,
                      argL: Option<real>, argS: Option<real>, out: seq<Candidate>)
    requires cfgL >= 0.0 && cfgS >= 0.0
    requires var w := ResolveWeights(cfgL, cfgS, argL, argS); IsRanking(lexical, semantic, w.0, w.1, out)
    ensures forall i :: 0 <= i < |out| ==> ScoresInRange(out[i])
  {
    hide Normalized, ResolveWeights, Precedes;
    var w := ResolveWeights(cfgL, cfgS, argL, argS);
    WeightsSumToOne(cfgL, cfgS, argL, argS);
    HybridRange(w.0, w.1);
    NormalizedRange(Best(lexical, false));
    NormalizedRange(Best(semantic, true));
    forall i | 0 <= i < |out| ensures ScoresInRange(out[i]) {
      assert out[i] in out;
    }
  }
}
