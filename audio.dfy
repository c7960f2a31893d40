/** Speech output (src/lib/audio.ts): the text chunker `splitIntoChunks`,
    which normalises white space, splits after sentence punctuation and
    hard-wraps long sentences, and `AudioSvc.sayChunks`, which voices the
    chunks one after another. The speech engine itself is an abstract
    speaker that records what it was asked to say. */
module Audio {
  import opened Wrappers
  import opened Text

  /** The default chunk limit of `splitIntoChunks`, the one `sayChunks` uses. */
  const MaxChunk: nat := 180

  /** The pause after each chunk, in milliseconds. */
  const ChunkPauseMs: nat := 120

  // ---------------------------------------------------------------------------
  // White-space normalisation: `text.replace(/\s+/g, ' ').trim()`

  /** Every maximal run of white space replaced by one ASCII space. */
  function CollapseSpaces(s: string): (r: string)
    ensures forall i :: 0 <= i < |r| ==> SingleSpaceAt(r, i)
    ensures s != [] && !IsSpace(s[0]) ==> r != [] && r[0] == s[0]
    ensures s != [] ==> r != []
    decreases |s|
  {
    if s == [] then []
    else if IsSpace(s[0]) then
      var t := TrimStart(s);
      var c := CollapseSpaces(t);
      var r := " " + c;
      assert forall i :: 0 <= i < |r| ==> SingleSpaceAt(r, i) by {
        forall i | 0 <= i < |r|
          ensures SingleSpaceAt(r, i)
        {
          if i > 0 {
            assert r[i] == c[i - 1];
            assert SingleSpaceAt(c, i - 1);
          }
        }
      }
      r
    else
      var c := CollapseSpaces(s[1..]);
      var r := [s[0]] + c;
      assert forall i :: 0 <= i < |r| ==> SingleSpaceAt(r, i) by {
        forall i | 0 <= i < |r|
          ensures SingleSpaceAt(r, i)
        {
          if i > 0 {
            assert r[i] == c[i - 1];
            assert SingleSpaceAt(c, i - 1);
          }
        }
      }
      r
  }

  /** What the chunker works on: no white space at either end, and inside
      only single ASCII spaces between non-space characters. */
  predicate Normalized(s: string) {
    forall i :: 0 <= i < |s| ==> NormalAt(s, i)
  }

  /** White space at index `i` is a lone ASCII space. */
  predicate SingleSpaceAt(s: string, i: int)
    requires 0 <= i < |s|
  {
    IsSpace(s[i]) ==> s[i] == ' ' && (i + 1 == |s| || !IsSpace(s[i + 1]))
  }

  /** White space at index `i` is a lone ASCII space between two non-spaces. */
  predicate NormalAt(s: string, i: int)
    requires 0 <= i < |s|
  {
    IsSpace(s[i]) ==> s[i] == ' ' && 0 < i < |s| - 1 && !IsSpace(s[i + 1])
  }

  function Normalize(text: string): (r: string)
    ensures Normalized(r)
  {
    var c := CollapseSpaces(text);
    var r := Trim(c);
    var k := |c| - |TrimStart(c)|;
    TrimDropsSpace(c);
    assert r == c[k..k + |r|];
    forall i | 0 <= i < |r|
      ensures NormalAt(r, i)
    {
      assert r[i] == c[k + i];
      if IsSpace(r[i]) {
        assert 0 < i < |r| - 1 by { assert Trimmed(r); }
        assert SingleSpaceAt(c, k + i);
        assert r[i + 1] == c[k + i + 1];
      }
    }
    r
  }

  // ---------------------------------------------------------------------------
  // The words of a text: what normalisation must keep

  /** A word: a non-empty run of non-space characters. */
  predicate IsWord(w: string) {
    w != [] && forall i :: 0 <= i < |w| ==> !IsSpace(w[i])
  }

  /** The maximal runs of non-space characters of `s`, in order. */
  function Words(s: string): (ws: seq<string>)
    ensures |s| > 0 && !IsSpace(s[0]) ==> |ws| > 0
    decreases |s|
  {
    if |s| == 0 then []
    else if IsSpace(s[0]) then Words(s[1..])
    else
      var ws := Words(s[1..]);
      if |s| > 1 && !IsSpace(s[1]) then [[s[0]] + ws[0]] + ws[1..]
      else [[s[0]]] + ws
  }

  /** Every element of `Words(s)` is a word. */
  lemma {:induction false} WordsAreWords(s: string)
    ensures forall i :: 0 <= i < |Words(s)| ==> IsWord(Words(s)[i])
    decreases |s|
  {
    if |s| == 0 {
    } else if IsSpace(s[0]) {
      WordsAreWords(s[1..]);
    } else {
      var ws := Words(s[1..]);
      WordsAreWords(s[1..]);
      if |s| > 1 && !IsSpace(s[1]) {
        var h := [s[0]] + ws[0];
        forall i | 0 <= i < |h| ensures !IsSpace(h[i]) {
          if i > 0 { assert h[i] == ws[0][i - 1]; }
        }
        forall i | 0 <= i < |Words(s)| ensures IsWord(Words(s)[i]) {
          if i > 0 { assert Words(s)[i] == ws[i]; }
        }
      } else {
        forall i | 0 <= i < |Words(s)| ensures IsWord(Words(s)[i]) {
          if i > 0 { assert Words(s)[i] == ws[i - 1]; }
        }
      }
    }
  }

  /** A text without words is all white space. */
  lemma {:induction false} NoWordsAllSpace(s: string)
    requires Words(s) == []
    ensures AllSpace(s)
    decreases |s|
  {
    if |s| > 0 {
      NoWordsAllSpace(s[1..]);
      forall i | 0 <= i < |s| ensures IsSpace(s[i]) {
        if i > 0 { assert s[i] == s[1..][i - 1]; }
      }
    }
  }

  /** Leading white space holds no word. */
  lemma {:induction false} WordsFrom(s: string, from: nat)
    requires from <= |s|
    ensures Words(s[from..]) == Words(s[LeadEnd(s, from)..])
    decreases |s| - from
  {
    if from < |s| && IsSpace(s[from]) {
      assert s[from..][1..] == s[from + 1..];
      WordsFrom(s, from + 1);
    }
  }

  /** The space `CollapseSpaces` leaves before the first word. */
  function LeadSpace(s: string): string {
    if |s| > 0 && IsSpace(s[0]) then " " else ""
  }

  /** The space `CollapseSpaces` leaves after the last word. */
  function TrailSpace(s: string): string {
    if |Words(s)| > 0 && IsSpace(s[|s| - 1]) then " " else ""
  }

  /** The shape `CollapseSpaces` gives `s`: its words, in order, one space
      between each two, and one space for white space at either end. */
  predicate CollapsesToWords(s: string) {
    CollapseSpaces(s) == LeadSpace(s) + Join(Words(s), " ") + TrailSpace(s)
  }

  /** Collapsing white space keeps the words, in order, with one space
      between each two, and one space for white space at either end. */
  lemma {:induction false} CollapseWords(s: string)
    ensures CollapsesToWords(s)
    decreases |s|
  {
    if |s| == 0 {
    } else if IsSpace(s[0]) {
      if TrimStart(s) != [] {
        CollapseWords(TrimStart(s));
      }
      CollapseLeadSpace(s);
    } else if |s| == 1 {
      assert s[1..] == [];
    } else {
      CollapseWords(s[1..]);
      if !IsSpace(s[1]) {
        CollapseInWord(s);
      } else if Words(s[1..]) == [] {
        CollapseLastWord(s);
      } else {
        CollapseWordEnd(s);
      }
    }
  }

  /** Step of `CollapseWords`: leading white space becomes one space. */
  lemma CollapseLeadSpace(s: string)
    requires |s| > 0 && IsSpace(s[0])
    requires TrimStart(s) == [] || CollapsesToWords(TrimStart(s))
    ensures CollapsesToWords(s)
  {
    var t := TrimStart(s);
    assert CollapseSpaces(s) == " " + CollapseSpaces(t);
    WordsFrom(s, 0);
    assert s[0..] == s;
    assert Words(s) == Words(t);
    if t == [] {
      assert Words(s) == [];
    } else {
      assert LeadSpace(t) == "";
      assert t[|t| - 1] == s[|s| - 1];
      assert TrailSpace(s) == TrailSpace(t);
    }
  }

  /** Step of `CollapseWords`: a character followed by another of its word. */
  lemma CollapseInWord(s: string)
    requires |s| > 1 && !IsSpace(s[0]) && !IsSpace(s[1])
    requires CollapsesToWords(s[1..])
    ensures CollapsesToWords(s)
  {
    var u := s[1..];
    assert u[|u| - 1] == s[|s| - 1];
    JoinPrepend(s[0], Words(u), " ");
  }

  /** Step of `CollapseWords`: the last character of the last word. */
  lemma CollapseLastWord(s: string)
    requires |s| > 1 && !IsSpace(s[0]) && IsSpace(s[1])
    requires Words(s[1..]) == [] && CollapsesToWords(s[1..])
    ensures CollapsesToWords(s)
  {
    var u := s[1..];
    NoWordsAllSpace(u);
    assert IsSpace(u[|u| - 1]);
  }

  /** Step of `CollapseWords`: the last character of a word before others. */
  lemma CollapseWordEnd(s: string)
    requires |s| > 1 && !IsSpace(s[0]) && IsSpace(s[1])
    requires Words(s[1..]) != [] && CollapsesToWords(s[1..])
    ensures CollapsesToWords(s)
  {
    var u := s[1..];
    var ws := Words(u);
    assert u[|u| - 1] == s[|s| - 1];
    assert ([[s[0]]] + ws)[1..] == ws;
  }

  /** Joined words have no white space at either end. */
  lemma {:induction false} JoinWordsTrimmed(ws: seq<string>)
    requires forall i :: 0 <= i < |ws| ==> IsWord(ws[i])
    ensures Trimmed(Join(ws, " "))
    ensures |ws| > 0 ==> Join(ws, " ") != []
    decreases |ws|
  {
    if |ws| > 1 {
      JoinWordsTrimmed(ws[1..]);
      var j := Join(ws[1..], " ");
      assert Join(ws, " ") == ws[0] + " " + j;
    }
  }

  /** `Normalize` gives the words of the text joined by single spaces:
      nothing but white space is dropped, and every white-space run between
      two words becomes one space. */
  lemma NormalizeWords(text: string)
    ensures Normalize(text) == Join(Words(text), " ")
  {
    CollapseWords(text);
    WordsAreWords(text);
    JoinWordsTrimmed(Words(text));
    TrimAround(LeadSpace(text), Join(Words(text), " "), TrailSpace(text));
  }

  // ---------------------------------------------------------------------------
  // Sentence split: `.split(/([.!?;:])\s+/).reduce(...).filter(Boolean)`

  predicate IsPunct(c: char) {
    c == '.' || c == '!' || c == '?' || c == ';' || c == ':'
  }

  /** A match of `[.!?;:]\s+` starts at index `i`. */
  predicate BreakAt(s: string, i: int) {
    0 <= i && i + 1 < |s| && IsPunct(s[i]) && IsSpace(s[i + 1])
  }

  /** The leftmost match of `[.!?;:]\s+` at or after `from`. */
  function FindBreak(s: string, from: nat): (k: Option<nat>)
    ensures k.Some? ==> from <= k.value && BreakAt(s, k.value)
    ensures forall j :: from <= j && (k.None? || j < k.value) ==> !BreakAt(s, j)
    decreases |s| - from
  {
    if from + 1 >= |s| then None
    else if BreakAt(s, from) then Some(from)
    else FindBreak(s, from + 1)
  }

  /** `s.split(/([.!?;:])\s+/)`: the pieces between matches, each match's
      captured punctuation mark in between; the greedy `\s+` swallows the
      whole white-space run. */
  function RegexSplit(s: string): (r: seq<string>)
    ensures |r| % 2 == 1
    decreases |s|
  {
    match FindBreak(s, 0)
    case None => [s]
    case Some(k) =>
      var rest := TrimStart(s[k + 1..]);
      [s[..k], [s[k]]] + RegexSplit(rest)
  }

  /** The `reduce`: each piece with its punctuation mark and a space, trimmed. */
  function Pair(arr: seq<string>): seq<string>
    decreases |arr|
  {
    if |arr| == 0 then []
    else
      var end := if |arr| > 1 then arr[1] else "";
      var piece := if end != "" then arr[0] + end + " " else arr[0];
      [Trim(piece)] + (if |arr| >= 2 then Pair(arr[2..]) else [])
  }

  /** `.filter(Boolean)`: drop the empty strings. */
  function NonEmpty(parts: seq<string>): (r: seq<string>)
    ensures forall i :: 0 <= i < |r| ==> r[i] != ""
  {
    if parts == [] then []
    else (if parts[0] != "" then [parts[0]] else []) + NonEmpty(parts[1..])
  }

  function Sentences(s: string): seq<string> {
    NonEmpty(Pair(RegexSplit(s)))
  }

  // ---------------------------------------------------------------------------
  // Hard wrap of a sentence longer than `max`

  /** `s.lastIndexOf(c, from)` for a one-character `c`: the last index at or
      before `from` holding `c`, or -1. */
  function LastIndexOf(s: string, c: char, from: nat): (k: int)
    ensures -1 <= k <= from && k < |s|
    ensures k >= 0 ==> s[k] == c
    ensures forall j :: k < j <= from && j < |s| ==> s[j] != c
    decreases from
  {
    if from < |s| && s[from] == c then from
    else if from == 0 then -1
    else LastIndexOf(s, c, from - 1)
  }

  /** `if (tmp) out.push(tmp)`. */
  function Tail(tmp: string): seq<string> {
    if tmp != "" then [tmp] else []
  }

  /** The inner `while` loop and the final push: what is emitted for `tmp`. */
  function WrapRest(tmp: string, max: nat): seq<string>
    decreases |tmp|
  {
    if |tmp| > max then
      var cut := LastIndexOf(tmp, ' ', max);
      if cut <= 0 then Tail(tmp)
      else [tmp[..cut]] + WrapRest(tmp[cut + 1..], max)
    else Tail(tmp)
  }

  /** The first piece of `WrapRest(rest, max)` is a prefix of `rest` that
      ends at a space of `rest` or at its end. */
  lemma WrapRestHead(rest: string, max: nat)
    requires WrapRest(rest, max) != []
    ensures |WrapRest(rest, max)[0]| <= |rest|
    ensures WrapRest(rest, max)[0] == rest[..|WrapRest(rest, max)[0]|]
    ensures |WrapRest(rest, max)[0]| == |rest| || rest[|WrapRest(rest, max)[0]|] == ' '
  {
  }

  /** A space, or the end of `tmp`, after the last space at or before `max`
      lies beyond `max`. */
  lemma SpaceBeyondCut(tmp: string, max: nat, j: nat)
    requires |tmp| > max && LastIndexOf(tmp, ' ', max) < j <= |tmp|
    requires j == |tmp| || tmp[j] == ' '
    ensures j > max
  {
  }

  /** A word `w` that starts right after the cut and ends at a space or at
      the end of `tmp` reaches beyond `max`. */
  lemma CutIsGreedy(tmp: string, max: nat, w: string)
    requires |tmp| > max && 0 < LastIndexOf(tmp, ' ', max)
    requires LastIndexOf(tmp, ' ', max) + 1 + |w| <= |tmp|
    requires w == tmp[LastIndexOf(tmp, ' ', max) + 1..LastIndexOf(tmp, ' ', max) + 1 + |w|]
    requires LastIndexOf(tmp, ' ', max) + 1 + |w| == |tmp|
      || tmp[LastIndexOf(tmp, ' ', max) + 1 + |w|] == ' '
    ensures LastIndexOf(tmp, ' ', max) + 1 + FirstFrom(w, ' ', 0) > max
  {
    var j := LastIndexOf(tmp, ' ', max) + 1 + FirstFrom(w, ' ', 0);
    if FirstFrom(w, ' ', 0) < |w| {
      assert tmp[j] == w[FirstFrom(w, ' ', 0)];
    }
    SpaceBeyondCut(tmp, max, j);
  }

  /** When `tmp` is cut, the first cut is greedy: the first word of the
      next piece does not fit after the first piece. */
  lemma WrapRestGreedyHead(tmp: string, max: nat)
    requires |tmp| > max && 0 < LastIndexOf(tmp, ' ', max)
    requires WrapRest(tmp[LastIndexOf(tmp, ' ', max) + 1..], max) != []
    ensures LastIndexOf(tmp, ' ', max) + 1
      + FirstFrom(WrapRest(tmp[LastIndexOf(tmp, ' ', max) + 1..], max)[0], ' ', 0) > max
  {
    var cut := LastIndexOf(tmp, ' ', max);
    var rest := tmp[cut + 1..];
    var w := WrapRest(rest, max)[0];
    WrapRestHead(rest, max);
    assert w == tmp[cut + 1..cut + 1 + |w|];
    if |w| < |rest| {
      assert tmp[cut + 1 + |w|] == rest[|w|];
    }
    CutIsGreedy(tmp, max, w);
  }

  /** The cut is greedy: a piece followed by another could not have taken
      the next piece's first word as well without exceeding `max`. */
  lemma {:induction false} WrapRestGreedy(tmp: string, max: nat)
    ensures forall i :: 0 <= i < |WrapRest(tmp, max)| - 1 ==>
      |WrapRest(tmp, max)[i]| + 1 + FirstFrom(WrapRest(tmp, max)[i + 1], ' ', 0) > max
    decreases |tmp|
  {
    var p := WrapRest(tmp, max);
    if |tmp| > max && 0 < LastIndexOf(tmp, ' ', max) {
      var cut := LastIndexOf(tmp, ' ', max);
      var q := WrapRest(tmp[cut + 1..], max);
      assert p == [tmp[..cut]] + q;
      WrapRestGreedy(tmp[cut + 1..], max);
      if q != [] {
        WrapRestGreedyHead(tmp, max);
      }
      forall i | 0 <= i < |p| - 1 ensures |p[i]| + 1 + FirstFrom(p[i + 1], ' ', 0) > max {
        if i > 0 {
          assert p[i] == q[i - 1] && p[i + 1] == q[i];
        }
      }
    }
  }

  /** What the outer `for` loop emits for one sentence. */
  function Wrap(p: string, max: nat): seq<string> {
    if |p| <= max then [p] else WrapRest(p, max)
  }

  /** The chunks of the first `|parts|` sentences, in order. */
  function WrapAll(parts: seq<string>, max: nat): seq<string> {
    if parts == [] then [] else WrapAll(parts[..|parts| - 1], max) + Wrap(parts[|parts| - 1], max)
  }

  /** `splitIntoChunks(text, max)` as a value. */
  function ChunkText(text: string, max: nat): seq<string> {
    WrapAll(Sentences(Normalize(text)), max)
  }

  /** A chunk is short enough, or it is a remainder with no space at indices 1..max to cut at. */
  predicate WithinLimit(c: string, max: nat) {
    |c| <= max || forall j :: 1 <= j <= max ==> c[j] != ' '
  }

  /** What every chunk satisfies: non-empty, normalised, within the limit. */
  predicate GoodChunk(c: string, max: nat) {
    c != "" && Normalized(c) && WithinLimit(c, max)
  }

  /** `splitIntoChunks`: the white-space and sentence pipeline, then the
      wrapping loops. */
  method SplitIntoChunks(text: string, max: nat) returns (out: seq<string>)
    ensures out == ChunkText(text, max)
    ensures Join(out, " ") == Normalize(text)
    ensures forall i :: 0 <= i < |out| ==> GoodChunk(out[i], max)
  {
    var parts := Sentences(Normalize(text));
    out := WrapSentences(parts, max);
    ChunkTextRoundTrip(text, max);
    ChunkTextShape(text, max);
  }

  /** The outer `for` and inner `while` loops of `splitIntoChunks`, which push
      onto `out` and shrink `tmp`. */
  method WrapSentences(parts: seq<string>, max: nat) returns (out: seq<string>)
    ensures out == WrapAll(parts, max)
  {
    out := [];
    for k := 0 to |parts|
      invariant out == WrapAll(parts[..k], max)
    {
      assert parts[..k + 1][..k] == parts[..k];
      var p := parts[k];
      if |p| <= max {
        out := out + [p];
        continue;
      }
      var tmp := p;
      while |tmp| > max
        invariant out + WrapRest(tmp, max) == WrapAll(parts[..k + 1], max)
        decreases |tmp|
      {
        var cut := LastIndexOf(tmp, ' ', max);
        if cut <= 0 {
          break;
        }
        out := out + [tmp[..cut]];
        tmp := tmp[cut + 1..];
      }
      if tmp != "" {
        out := out + [tmp];
      }
    }
    assert parts[..|parts|] == parts;
  }

  // ---------------------------------------------------------------------------
  // Properties of the chunker

  /** A piece of a normalised text that starts and ends next to a non-space
      is normalised too. */
  lemma NormalizedSlice(s: string, a: int, b: int)
    requires Normalized(s) && 0 <= a < b <= |s|
    requires !IsSpace(s[a]) && !IsSpace(s[b - 1])
    ensures Normalized(s[a..b])
  {
    var t := s[a..b];
    forall i | 0 <= i < |t|
      ensures NormalAt(t, i)
    {
      assert t[i] == s[a + i];
      assert NormalAt(s, a + i);
    }
  }

  /** Normalisation leaves a normalised text as it is. */
  lemma NormalizeIdempotent(s: string)
    requires Normalized(s)
    ensures Normalize(s) == s
  {
    forall i | 0 <= i < |s|
      ensures SingleSpaceAt(s, i)
    {
      assert NormalAt(s, i);
    }
    CollapseNormalized(s);
    if s != [] {
      assert NormalAt(s, 0) && NormalAt(s, |s| - 1);
    }
    assert Trimmed(s);
  }

  lemma {:induction false} CollapseNormalized(s: string)
    requires forall i :: 0 <= i < |s| ==> SingleSpaceAt(s, i)
    ensures CollapseSpaces(s) == s
    decreases |s|
  {
    if s != [] {
      var t := s[1..];
      forall i | 0 <= i < |t|
        ensures SingleSpaceAt(t, i)
      {
        assert t[i] == s[i + 1];
        assert SingleSpaceAt(s, i + 1);
      }
      CollapseNormalized(t);
      if IsSpace(s[0]) {
        assert SingleSpaceAt(s, 0);
        assert t == [] || !IsSpace(t[0]);
        assert LeadEnd(s, 0) == 1;
        assert TrimStart(s) == t;
        assert s == " " + t;
      } else {
        assert s == [s[0]] + t;
      }
    }
  }

  /** A sentence as the split leaves it: non-empty, normalised, and with no
      punctuation-then-space break inside. */
  predicate SentenceShape(p: string) {
    p != "" && Normalized(p) && forall j :: 0 <= j < |p| ==> !BreakAt(p, j)
  }

  /** `ps` is a sentence split of `s`: joined with single spaces the
      sentences give `s` back; each has the shape above; every sentence but
      the last ends with its punctuation mark. */
  predicate SplitsInto(ps: seq<string>, s: string) {
    && Join(ps, " ") == s
    && (forall i :: 0 <= i < |ps| ==> SentenceShape(ps[i]))
    && (forall i :: 0 <= i < |ps| - 1 ==> IsPunct(ps[i][|ps[i]| - 1]))
  }

  /** The sentence split of a normalised text is a sentence split of it in
      the sense above: the punctuation stays with its sentence, exactly the
      one space after it is dropped, and nothing else is lost. */
  lemma {:induction false} SentencesOfNormalized(s: string)
    requires Normalized(s)
    ensures SplitsInto(Sentences(s), s)
    decreases |s|
  {
    match FindBreak(s, 0)
    case None =>
      SentencesNoBreak(s);
    case Some(k) =>
      SentencesStep(s, k);
      var head, rest := s[..k + 1], s[k + 2..];
      SentencesOfNormalized(rest);
      SplitsIntoCons(head, Sentences(rest), rest);
      assert Sentences(s) == [head] + Sentences(rest);
      assert s == head + " " + rest;
  }

  lemma SplitsIntoCons(head: string, ps: seq<string>, rest: string)
    requires SentenceShape(head) && IsPunct(head[|head| - 1])
    requires SplitsInto(ps, rest) && rest != ""
    ensures SplitsInto([head] + ps, head + " " + rest)
  {
    assert ps != [];
    JoinAppend([head], ps, " ");
    var qs := [head] + ps;
    forall i | 0 <= i < |qs|
      ensures SentenceShape(qs[i])
    {
      if i > 0 { assert qs[i] == ps[i - 1]; }
    }
    forall i | 0 <= i < |qs| - 1
      ensures IsPunct(qs[i][|qs[i]| - 1])
    {
      if i > 0 { assert qs[i] == ps[i - 1]; }
    }
  }

  /** Without a break the whole normalised text is one sentence (or none, when empty). */
  lemma SentencesNoBreak(s: string)
    requires Normalized(s) && FindBreak(s, 0).None?
    ensures Sentences(s) == if s == "" then [] else [s]
    ensures s != "" ==> SentenceShape(s)
  {
    assert RegexSplit(s) == [s];
    assert Pair([s]) == [Trim(s)];
    if s != "" {
      assert NormalAt(s, 0) && NormalAt(s, |s| - 1);
    }
    assert Trimmed(s);
    assert NonEmpty([s]) == if s != "" then [s] else [];
  }

  /** One step of the split of a normalised text at its first break `k`: the
      sentence `s[..k + 1]` keeps its punctuation mark, exactly one space is
      dropped, and the split goes on after it. */
  lemma SentencesStep(s: string, k: nat)
    requires Normalized(s) && FindBreak(s, 0) == Some(k)
    ensures k + 2 < |s| && s[k + 1] == ' ' && s == s[..k + 1] + " " + s[k + 2..]
    ensures Sentences(s) == [s[..k + 1]] + Sentences(s[k + 2..])
    ensures SentenceShape(s[..k + 1]) && IsPunct(s[k])
    ensures Normalized(s[k + 2..]) && s[k + 2..] != ""
  {
    BreakSplitsText(s, k);
    HeadOfBreak(s, k);
    SentencesAtBreak(s, k);
  }

  lemma BreakSplitsText(s: string, k: nat)
    requires Normalized(s) && FindBreak(s, 0) == Some(k)
    ensures k + 2 < |s| && s[k + 1] == ' ' && s == s[..k + 1] + " " + s[k + 2..]
    ensures Normalized(s[k + 2..]) && s[k + 2..] != ""
  {
    assert BreakAt(s, k);
    assert NormalAt(s, k + 1);
    assert NormalAt(s, |s| - 1);
    CutJoin(s, k + 1);
    NormalizedSlice(s, k + 2, |s|);
    assert s[k + 2..|s|] == s[k + 2..];
  }

  lemma SentencesAtBreak(s: string, k: nat)
    requires Normalized(s) && FindBreak(s, 0) == Some(k)
    ensures Sentences(s) == [s[..k + 1]] + Sentences(s[k + 2..])
  {
    RegexSplitStep(s, k);
    HeadOfBreak(s, k);
    SentencesCons(s, s[..k], [s[k]], s[..k + 1], s[k + 2..]);
  }

  /** The sentence before the first break, with its punctuation mark. */
  lemma HeadOfBreak(s: string, k: nat)
    requires Normalized(s) && FindBreak(s, 0) == Some(k)
    ensures SentenceShape(s[..k + 1])
    ensures Trim(s[..k] + [s[k]] + " ") == s[..k + 1]
  {
    var head := s[..k + 1];
    assert NormalAt(s, 0);
    assert BreakAt(s, k);
    NormalizedSlice(s, 0, k + 1);
    assert s[..k] + [s[k]] + " " == head + " ";
    TrimDropsOneTrailingSpace(head);
    forall j | 0 <= j < |head|
      ensures !BreakAt(head, j)
    {
      if BreakAt(head, j) {
        assert BreakAt(s, j);
      }
    }
  }

  lemma RegexSplitStep(s: string, k: nat)
    requires Normalized(s) && FindBreak(s, 0) == Some(k)
    ensures k + 2 < |s| && s[k + 1] == ' ' && !IsSpace(s[k + 2])
    ensures RegexSplit(s) == [s[..k], [s[k]]] + RegexSplit(s[k + 2..])
  {
    assert NormalAt(s, k + 1);
    var rest := s[k + 2..];
    assert TrimStart(s[k + 1..]) == rest by {
      var x := s[k + 1..];
      assert IsSpace(x[0]) && !IsSpace(x[1]);
      assert LeadEnd(x, 0) == 1;
      assert x[1..] == rest;
    }
  }

  lemma SentencesCons(s: string, cur: string, end: string, head: string, rest: string)
    requires RegexSplit(s) == [cur, end] + RegexSplit(rest)
    requires Trim(cur + end + " ") == head && head != "" && end != ""
    ensures Sentences(s) == [head] + Sentences(rest)
  {
    PairNonEmptyStep(cur, end, head, RegexSplit(rest));
  }

  lemma PairNonEmptyStep(cur: string, end: string, head: string, tail: seq<string>)
    requires end != "" && head != "" && Trim(cur + end + " ") == head
    ensures NonEmpty(Pair([cur, end] + tail)) == [head] + NonEmpty(Pair(tail))
  {
    assert Pair([cur, end] + tail) == [head] + Pair(tail) by {
      assert ([cur, end] + tail)[2..] == tail;
    }
    assert ([head] + Pair(tail))[1..] == Pair(tail);
  }

  /** A cut at the last space within the limit leaves two normalised
      pieces around that one space. */
  lemma WrapCut(tmp: string, max: nat, cut: int)
    requires Normalized(tmp) && |tmp| > max && cut == LastIndexOf(tmp, ' ', max) && cut > 0
    ensures 0 < cut < |tmp| - 1
    ensures tmp[..cut] != "" && Normalized(tmp[..cut]) && WithinLimit(tmp[..cut], max)
    ensures Normalized(tmp[cut + 1..])
  {
    assert NormalAt(tmp, cut) && NormalAt(tmp, cut - 1);
    assert NormalAt(tmp, 0) && NormalAt(tmp, |tmp| - 1);
    assert 0 < cut < |tmp| - 1 && !IsSpace(tmp[cut + 1]) && !IsSpace(tmp[cut - 1]);
    NormalizedSlice(tmp, 0, cut);
    NormalizedSlice(tmp, cut + 1, |tmp|);
    assert tmp[cut + 1..|tmp|] == tmp[cut + 1..];
  }

  /** Text cut at a space is the two sides around that space. */
  lemma CutJoin(tmp: string, cut: int)
    requires 0 <= cut < |tmp| && tmp[cut] == ' '
    ensures tmp == tmp[..cut] + " " + tmp[cut + 1..]
  {
  }

  /** The text does not end in an ASCII space. */
  predicate NoTrailingSpace(s: string) {
    s == [] || s[|s| - 1] != ' '
  }

  lemma {:induction false} WrapRestJoin(tmp: string, max: nat)
    requires NoTrailingSpace(tmp)
    ensures Join(WrapRest(tmp, max), " ") == tmp
    ensures tmp != "" ==> WrapRest(tmp, max) != []
    decreases |tmp|
  {
    if |tmp| > max {
      var cut := LastIndexOf(tmp, ' ', max);
      if cut > 0 {
        var rest := tmp[cut + 1..];
        CutJoin(tmp, cut);
        WrapRestJoin(rest, max);
        JoinAppend([tmp[..cut]], WrapRest(rest, max), " ");
      }
    }
  }

  lemma {:induction false} WrapRestShape(tmp: string, max: nat)
    requires Normalized(tmp)
    ensures forall i :: 0 <= i < |WrapRest(tmp, max)| ==> GoodChunk(WrapRest(tmp, max)[i], max)
    decreases |tmp|
  {
    if |tmp| > max {
      var cut := LastIndexOf(tmp, ' ', max);
      if cut > 0 {
        var rest := tmp[cut + 1..];
        WrapCut(tmp, max, cut);
        WrapRestShape(rest, max);
        var cs := WrapRest(tmp, max);
        assert cs == [tmp[..cut]] + WrapRest(rest, max);
        forall i | 1 <= i < |cs| ensures GoodChunk(cs[i], max) {
          assert cs[i] == WrapRest(rest, max)[i - 1];
        }
      } else if tmp != "" {
        assert WrapRest(tmp, max) == [tmp];
      }
    } else if tmp != "" {
      assert WrapRest(tmp, max) == [tmp];
    }
  }

  /** The hard wrap of one sentence: joined by single spaces the pieces
      give the sentence back, and each piece is a good chunk. */
  lemma WrapRestSound(tmp: string, max: nat)
    requires Normalized(tmp)
    ensures Join(WrapRest(tmp, max), " ") == tmp
    ensures tmp != "" ==> WrapRest(tmp, max) != []
    ensures forall i :: 0 <= i < |WrapRest(tmp, max)| ==> GoodChunk(WrapRest(tmp, max)[i], max)
  {
    if tmp != "" {
      assert NormalAt(tmp, |tmp| - 1);
    }
    WrapRestJoin(tmp, max);
    WrapRestShape(tmp, max);
  }

  lemma WrapSound(p: string, max: nat)
    requires Normalized(p) && p != ""
    ensures Join(Wrap(p, max), " ") == p
    ensures Wrap(p, max) != []
    ensures forall i :: 0 <= i < |Wrap(p, max)| ==> GoodChunk(Wrap(p, max)[i], max)
  {
    WrapRestSound(p, max);
  }

  lemma {:induction false} WrapAllSound(parts: seq<string>, max: nat)
    requires forall i :: 0 <= i < |parts| ==> parts[i] != "" && Normalized(parts[i])
    ensures Join(WrapAll(parts, max), " ") == Join(parts, " ")
    ensures parts != [] ==> WrapAll(parts, max) != []
    ensures forall i :: 0 <= i < |WrapAll(parts, max)| ==> GoodChunk(WrapAll(parts, max)[i], max)
  {
    forall i | 0 <= i < |parts| ensures NoTrailingSpace(parts[i]) {
      assert NormalAt(parts[i], |parts[i]| - 1);
    }
    WrapAllJoin(parts, max);
    WrapAllShape(parts, max);
  }

  /** Joining two joined lists with one more separator. */
  lemma JoinSnocStep(a: seq<string>, b: seq<string>, init: seq<string>, last: string)
    requires a != [] && b != [] && init != []
    requires Join(a, " ") == Join(init, " ") && Join(b, " ") == last
    ensures Join(a + b, " ") == Join(init + [last], " ")
  {
    JoinAppend(a, b, " ");
    JoinAppend(init, [last], " ");
  }

  lemma InitLast(s: seq<string>)
    requires s != []
    ensures s == s[..|s| - 1] + [s[|s| - 1]]
  {
  }

  lemma WrapJoin(p: string, max: nat)
    requires NoTrailingSpace(p)
    ensures Join(Wrap(p, max), " ") == p && Wrap(p, max) != []
  {
    WrapRestJoin(p, max);
  }

  lemma {:induction false} WrapAllJoin(parts: seq<string>, max: nat)
    requires forall i :: 0 <= i < |parts| ==> NoTrailingSpace(parts[i])
    ensures Join(WrapAll(parts, max), " ") == Join(parts, " ")
    ensures parts != [] ==> WrapAll(parts, max) != []
  {
    if parts != [] {
      var init := parts[..|parts| - 1];
      var last := parts[|parts| - 1];
      WrapAllJoin(init, max);
      WrapJoin(last, max);
      WrapAllJoinStep(parts, init, last, max);
    }
  }

  lemma WrapAllJoinStep(parts: seq<string>, init: seq<string>, last: string, max: nat)
    requires parts != [] && init == parts[..|parts| - 1] && last == parts[|parts| - 1]
    requires init != [] ==> Join(WrapAll(init, max), " ") == Join(init, " ") && WrapAll(init, max) != []
    requires Join(Wrap(last, max), " ") == last && Wrap(last, max) != []
    ensures Join(WrapAll(parts, max), " ") == Join(parts, " ") && WrapAll(parts, max) != []
  {
    InitLast(parts);
    if init != [] {
      JoinSnocStep(WrapAll(init, max), Wrap(last, max), init, last);
    } else {
      assert WrapAll(parts, max) == Wrap(last, max);
    }
  }

  lemma {:induction false} WrapAllShape(parts: seq<string>, max: nat)
    requires forall i :: 0 <= i < |parts| ==> parts[i] != "" && Normalized(parts[i])
    ensures forall i :: 0 <= i < |WrapAll(parts, max)| ==> GoodChunk(WrapAll(parts, max)[i], max)
  {
    if parts != [] {
      var init := parts[..|parts| - 1];
      var last := parts[|parts| - 1];
      WrapAllShape(init, max);
      WrapSound(last, max);
      var a, b := WrapAll(init, max), Wrap(last, max);
      var cs := WrapAll(parts, max);
      assert cs == a + b;
      forall i | 0 <= i < |cs|
        ensures GoodChunk(cs[i], max)
      {
        if i < |a| {
          assert cs[i] == a[i];
          assert GoodChunk(a[i], max);
        } else {
          assert cs[i] == b[i - |a|];
          assert GoodChunk(b[i - |a|], max);
        }
      }
    }
  }

  /** Round trip: the chunks joined with single spaces are the
      white-space-normalised text. */
  lemma ChunkTextRoundTrip(text: string, max: nat)
    ensures Join(ChunkText(text, max), " ") == Normalize(text)
  {
    var s := Normalize(text);
    SentencesOfNormalized(s);
    var ps := Sentences(s);
    assert forall i :: 0 <= i < |ps| ==> SentenceShape(ps[i]);
    WrapAllSound(ps, max);
  }

  /** No chunk is empty or has white space at an end or doubled inside, and
      every chunk is within `max` unless it had no space to cut at. */
  lemma ChunkTextShape(text: string, max: nat)
    ensures var cs := ChunkText(text, max);
      forall i :: 0 <= i < |cs| ==> GoodChunk(cs[i], max)
  {
    var s := Normalize(text);
    SentencesOfNormalized(s);
    var ps := Sentences(s);
    assert forall i :: 0 <= i < |ps| ==> SentenceShape(ps[i]);
    WrapAllSound(ps, max);
  }

  /** A text that fits and has no sentence break is spoken as one chunk. */
  lemma ShortSentenceIsOneChunk(text: string, max: nat)
    requires var s := Normalize(text); s != "" && |s| <= max && FindBreak(s, 0).None?
    ensures ChunkText(text, max) == [Normalize(text)]
  {
    var s := Normalize(text);
    assert Pair([s]) == [Trim(s)];
    assert Trimmed(s);
    assert NonEmpty([s]) == [s];
    assert WrapAll([s], max) == WrapAll([], max) + Wrap(s, max);
  }

  // ---------------------------------------------------------------------------
  // `AudioSvc.sayChunks` against an abstract speaker

  /** What the speaker was asked to do. */
  datatype SpeechEvent = Said(text: string, mp3Url: Option<string>) | Paused(ms: nat)

  /** The clip for the `i`-th chunk (0-based): `${mp3Base}.${i + 1}.mp3` when a
      non-empty base is given, no clip otherwise. */
  function Mp3For(mp3Base: Option<string>, i: nat): Option<string> {
    if mp3Base.Some? && mp3Base.value != "" then Some(mp3Base.value + "." + NatToString(i + 1) + ".mp3")
    else None
  }

  /** The calls `sayChunks` makes for `chunks`: one `sayOrPlay` per chunk, each followed by the pause. */
  function ChunkPlan(chunks: seq<string>, mp3Base: Option<string>): seq<SpeechEvent> {
    if chunks == [] then []
    else ChunkPlan(chunks[..|chunks| - 1], mp3Base) + [Said(chunks[|chunks| - 1], Mp3For(mp3Base, |chunks| - 1)), Paused(ChunkPauseMs)]
  }

  /** Exactly one `sayOrPlay` per chunk, in chunk order, the `i`-th with clip `i + 1`. */
  lemma {:induction false} ChunkPlanShape(chunks: seq<string>, mp3Base: Option<string>)
    ensures var plan := ChunkPlan(chunks, mp3Base);
      && |plan| == 2 * |chunks|
      && forall i :: 0 <= i < |chunks| ==>
        plan[2 * i] == Said(chunks[i], Mp3For(mp3Base, i)) && plan[2 * i + 1] == Paused(ChunkPauseMs)
  {
    if chunks != [] {
      ChunkPlanShape(chunks[..|chunks| - 1], mp3Base);
    }
  }

  /** Distinct chunks are given distinct clips. */
  lemma Mp3ForDistinct(mp3Base: string, i: nat, j: nat)
    requires mp3Base != "" && i != j
    ensures Mp3For(Some(mp3Base), i) != Mp3For(Some(mp3Base), j)
  {
    var a := NatToString(i + 1);
    var b := NatToString(j + 1);
    if mp3Base + "." + a + ".mp3" == mp3Base + "." + b + ".mp3" {
      var n := |mp3Base| + 1;
      assert |a| == |b|;
      assert a == (mp3Base + "." + a + ".mp3")[n..n + |a|];
      assert b == (mp3Base + "." + b + ".mp3")[n..n + |b|];
      NatToStringInjective(i + 1, j + 1);
    }
  }

  /** `AudioSvc`: the speech engine, modelled by the log of what it was asked to do. */
  class AudioSvc {
    var log: seq<SpeechEvent>

    constructor ()
      ensures log == []
    {
      log := [];
    }

    /** `sayOrPlay(text, mp3Url)`: voice one line (the abstract speaker). */
    method SayOrPlay(text: string, mp3Url: Option<string>)
      modifies this
      ensures log == old(log) + [Said(text, mp3Url)]
    {
      log := log + [Said(text, mp3Url)];
    }

    /** `await new Promise(r => setTimeout(r, ms))`. */
    method Pause(ms: nat)
      modifies this
      ensures log == old(log) + [Paused(ms)]
    {
      log := log + [Paused(ms)];
    }

    /** `sayChunks(text, mp3Base)`. */
    method SayChunks(text: string, mp3Base: Option<string>)
      modifies this
      ensures log == old(log) + ChunkPlan(ChunkText(text, MaxChunk), mp3Base)
    {
      var chunks := SplitIntoChunks(text, MaxChunk);
      SayEach(chunks, mp3Base);
    }

    /** The loop of `sayChunks`: each chunk, with its clip, then the pause. */
    method SayEach(chunks: seq<string>, mp3Base: Option<string>)
      modifies this
      ensures log == old(log) + ChunkPlan(chunks, mp3Base)
    {
      for i := 0 to |chunks|
        invariant log == old(log) + ChunkPlan(chunks[..i], mp3Base)
      {
        assert chunks[..i + 1][..i] == chunks[..i];
        var mp3 := Mp3For(mp3Base, i);
        SayOrPlay(chunks[i], mp3);
        Pause(ChunkPauseMs);
      }
      assert chunks[..|chunks|] == chunks;
    }
  }
}
