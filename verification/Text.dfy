/** Text as the transcript services see it: whitespace runs, words, sentences and stripped strings. */
module Text {

  /** What Python's `str.split`, `str.strip` and the regex class `\s` all treat as whitespace. */
  predicate IsSpace(c: char) {
    || c == ' ' || '\t' <= c <= '\r' || '\U{1C}' <= c <= '\U{1F}' || c == '\U{85}' || c == '\U{A0}'
    || c == '\U{1680}' || '\U{2000}' <= c <= '\U{200A}' || c == '\U{2028}' || c == '\U{2029}'
    || c == '\U{202F}' || c == '\U{205F}' || c == '\U{3000}'
  }

  predicate IsEnder(c: char) {
    c == '.' || c == '!' || c == '?' || c == '\U{2026}'
  }

  /** Index of the first whitespace character, or the length. */
  function WordEnd(s: string): (n: nat)
    ensures n <= |s|
    ensures n < |s| ==> IsSpace(s[n])
    ensures forall i :: 0 <= i < n ==> !IsSpace(s[i])
  {
    if s == "" || IsSpace(s[0]) then 0 else 1 + WordEnd(s[1..])
  }

  /** `text.split()`: the maximal runs of non-whitespace, in order. */
  function Words(s: string): seq<string>
    decreases |s|
  {
    if s == "" then []
    else if IsSpace(s[0]) then Words(s[1..])
    else var n := WordEnd(s); [s[..n]] + Words(s[n..])
  }

  /** `" ".join(ws)` */
  function Join(ws: seq<string>): string {
    if |ws| == 0 then "" else if |ws| == 1 then ws[0] else ws[0] + " " + Join(ws[1..])
  }

  function TrimLeft(s: string): (r: string)
    ensures |r| <= |s|
    ensures r == s[|s| - |r|..]
    ensures r != "" ==> !IsSpace(r[0])
    ensures forall i :: 0 <= i < |s| - |r| ==> IsSpace(s[i])
  {
    if s != "" && IsSpace(s[0]) then TrimLeft(s[1..]) else s
  }

  function TrimRight(s: string): (r: string)
    ensures |r| <= |s|
    ensures r == s[..|r|]
    ensures r != "" ==> !IsSpace(r[|r| - 1])
    ensures forall i :: |r| <= i < |s| ==> IsSpace(s[i])
  {
    if s != "" && IsSpace(s[|s| - 1]) then TrimRight(s[..|s| - 1]) else s
  }

  /** `s.strip()` */
  function Strip(s: string): (r: string)
    ensures |r| <= |s|
    ensures r != "" ==> !IsSpace(r[0]) && !IsSpace(r[|r| - 1])
  {
    TrimRight(TrimLeft(s))
  }

  /** The non-whitespace characters of a text, in order: what no restructuring may lose. */
  function NonSpace(s: string): string {
    if s == "" then "" else (if IsSpace(s[0]) then "" else [s[0]]) + NonSpace(s[1..])
  }

  function Concat(ws: seq<string>): string {
    if ws == [] then "" else ws[0] + Concat(ws[1..])
  }

  /** All words of a sequence of texts, in order. */
  function AllWords(texts: seq<string>): seq<string> {
    if texts == [] then [] else Words(texts[0]) + AllWords(texts[1..])
  }

  // ---------- tidy texts: single inner blanks only ----------

  ghost predicate TidyAt(s: string, i: int)
    requires 0 <= i < |s|
  {
    IsSpace(s[i]) ==> s[i] == ' ' && 0 < i && i + 1 < |s| && !IsSpace(s[i - 1])
  }

  /** Non-empty, no outer whitespace, words separated by exactly one blank. */
  ghost predicate Tidy(s: string) {
    s != "" && forall i :: 0 <= i < |s| ==> TidyAt(s, i)
  }

  lemma TidyEnds(s: string)
    requires Tidy(s)
    ensures !IsSpace(s[0]) && !IsSpace(s[|s| - 1])
  {
    assert TidyAt(s, 0) && TidyAt(s, |s| - 1);
  }

  lemma TidySlice(s: string, i: nat, j: nat)
    requires Tidy(s) && i < j <= |s| && !IsSpace(s[i]) && !IsSpace(s[j - 1])
    ensures Tidy(s[i..j])
  {
    var t := s[i..j];
    forall k | 0 <= k < |t| ensures TidyAt(t, k) {
      assert TidyAt(s, i + k);
    }
  }

  lemma TidyJoin(a: string, b: string)
    requires Tidy(a) && Tidy(b)
    ensures Tidy(a + " " + b)
  {
    var t := a + " " + b;
    TidyEnds(a);
    TidyEnds(b);
    forall k | 0 <= k < |t| ensures TidyAt(t, k) {
      if k < |a| {
        assert TidyAt(a, k);
      } else if k > |a| {
        assert TidyAt(b, k - |a| - 1);
      }
    }
  }

  lemma StripTidy(s: string)
    requires Tidy(s)
    ensures Strip(s) == s
  {
    TidyEnds(s);
  }

  /** Cutting a tidy text at an inner blank leaves two tidy texts. */
  lemma TidyCut(s: string, i: nat)
    requires Tidy(s) && i < |s| && IsSpace(s[i])
    ensures 0 < i && Tidy(s[..i]) && i + 1 < |s| && Tidy(s[i + 1..])
    ensures s == s[..i] + " " + s[i + 1..]
  {
    assert TidyAt(s, i);
    assert TidyAt(s, i + 1);
    TidyEnds(s);
    TidySlice(s, 0, i);
    TidySlice(s, i + 1, |s|);
    assert s[i + 1..|s|] == s[i + 1..];
  }

  lemma StripSuffix(s: string, i: nat)
    requires Tidy(s) && 0 < i < |s|
    ensures Strip(s[i..]) == if IsSpace(s[i]) then s[i + 1..] else s[i..]
    ensures Tidy(Strip(s[i..]))
  {
    TidyEnds(s);
    if IsSpace(s[i]) {
      TidyCut(s, i);
      TidyEnds(s[i + 1..]);
      assert TrimLeft(s[i..]) == TrimLeft(s[i..][1..]);
      assert s[i..][1..] == s[i + 1..];
      StripTidy(s[i + 1..]);
    } else {
      TidySlice(s, i, |s|);
      assert s[i..|s|] == s[i..];
      StripTidy(s[i..]);
    }
  }

  // ---------- words ----------

  lemma {:induction false} WordEndPrefix(s: string, i: nat)
    requires WordEnd(s) <= i <= |s|
    ensures WordEnd(s[..i]) == WordEnd(s)
    decreases |s|
  {
    if s == "" || IsSpace(s[0]) {
    } else {
      WordEndPrefix(s[1..], i - 1);
      assert s[..i][1..] == s[1..][..i - 1];
    }
  }

  /** Splitting at any blank splits the word list. */
  lemma {:induction false} WordsSplit(s: string, i: nat)
    requires i < |s| && IsSpace(s[i])
    ensures Words(s) == Words(s[..i]) + Words(s[i + 1..])
    decreases |s|
  {
    hide IsSpace;
    if i == 0 {
      assert s[..0] == "";
    } else if IsSpace(s[0]) {
      WordsSplit(s[1..], i - 1);
      assert s[1..][..i - 1] == s[..i][1..];
      assert s[1..][i..] == s[i + 1..];
    } else {
      var n := WordEnd(s);
      WordsSplit(s[n..], i - n);
      assert s[n..][i - n + 1..] == s[i + 1..];
      WordsStep(s, n);
      FirstWordOfPrefix(s, i, n);
      hide Words;
      Assoc([s[..n]], Words(s[n..][..i - n]), Words(s[i + 1..]));
    }
  }

  lemma WordsStep(s: string, n: nat)
    requires s != "" && !IsSpace(s[0]) && n == WordEnd(s)
    ensures Words(s) == [s[..n]] + Words(s[n..])
  {
  }

  lemma PrefixParts(s: string, n: nat, i: nat)
    requires n <= i <= |s|
    ensures s[..i][..n] == s[..n] && s[..i][n..] == s[n..][..i - n]
  {
  }

  /** A prefix that ends at a blank starts with the same word as the whole text. */
  lemma FirstWordOfPrefix(s: string, i: nat, n: nat)
    requires n <= i < |s| && !IsSpace(s[0]) && n == WordEnd(s) && 0 < i
    ensures Words(s[..i]) == [s[..n]] + Words(s[n..][..i - n])
  {
    hide Words, IsSpace;
    WordEndPrefix(s, i);
    WordsStep(s[..i], n);
    PrefixParts(s, n, i);
  }

  lemma WordsJoin2(a: string, b: string)
    ensures Words(a + " " + b) == Words(a) + Words(b)
  {
    var t := a + " " + b;
    WordsSplit(t, |a|);
    assert t[..|a|] == a && t[|a| + 1..] == b;
  }

  lemma {:induction false} WordEndNoSpace(s: string)
    requires forall i :: 0 <= i < |s| ==> !IsSpace(s[i])
    ensures WordEnd(s) == |s|
  {
    if s != "" {
      WordEndNoSpace(s[1..]);
    }
  }

  lemma WordEndIs(s: string, n: nat)
    requires n <= |s| && (forall i :: 0 <= i < n ==> !IsSpace(s[i])) && (n < |s| ==> IsSpace(s[n]))
    ensures WordEnd(s) == n
  {
  }

  /** A text without blanks is one word. */
  lemma WordsSingle(s: string)
    requires s != "" && forall i :: 0 <= i < |s| ==> !IsSpace(s[i])
    ensures Words(s) == [s]
  {
    WordEndNoSpace(s);
    assert s[..|s|] == s && s[|s|..] == "";
  }

  lemma WordsHead(s: string)
    requires s != "" && !IsSpace(s[0])
    ensures Words(s) != [] && Words(s)[0] == s[..WordEnd(s)] && Words(s)[1..] == Words(s[WordEnd(s)..])
  {
    hide IsSpace;
  }

  /** Cutting inside the first word cuts that word and nothing else. */
  lemma WordsInnerCut(s: string, m: nat)
    requires 0 < m < |s| && (forall i :: 0 <= i <= m ==> !IsSpace(s[i]))
    ensures Words(s) != [] && Words(s[m..]) != []
    ensures Words(s)[0] == s[..m] + Words(s[m..])[0]
    ensures Words(s)[1..] == Words(s[m..])[1..]
  {
    hide IsSpace, Words;
    var n := WordEnd(s);
    var t := s[m..];
    assert m < n && t[0] == s[m];
    WordEndIs(t, n - m);
    hide WordEnd;
    WordsHead(s);
    WordsHead(t);
    SliceSlice(s, m, n);
  }

  lemma SliceSlice(s: string, m: nat, n: nat)
    requires m <= n <= |s|
    ensures s[..n] == s[..m] + s[m..][..n - m]
    ensures s[m..][n - m..] == s[n..]
  {
  }

  lemma {:induction false} WordsTidyNonEmpty(s: string)
    requires Tidy(s)
    ensures Words(s) != []
  {
    TidyEnds(s);
  }

  /** Words are non-empty, blank-free and no longer than their text. */
  lemma {:induction false} WordsFit(s: string)
    ensures forall w :: w in Words(s) ==> 0 < |w| <= |s| && forall i :: 0 <= i < |w| ==> !IsSpace(w[i])
    decreases |s|
  {
    if s == "" {
    } else if IsSpace(s[0]) {
      WordsFit(s[1..]);
    } else {
      WordsFit(s[WordEnd(s)..]);
    }
  }

  lemma {:induction false} NonSpaceConcat(a: string, b: string)
    ensures NonSpace(a + b) == NonSpace(a) + NonSpace(b)
  {
    hide IsSpace;
    var t := a + b;
    if a == "" {
      assert t == b;
    } else {
      NonSpaceConcat(a[1..], b);
      assert t[1..] == a[1..] + b && t[0] == a[0];
      var head := if IsSpace(a[0]) then "" else [a[0]];
      Assoc(head, NonSpace(a[1..]), NonSpace(b));
    }
  }

  lemma {:induction false} NonSpaceWord(s: string)
    requires forall i :: 0 <= i < |s| ==> !IsSpace(s[i])
    ensures NonSpace(s) == s
  {
    if s != "" {
      NonSpaceWord(s[1..]);
    }
  }

  /** The words of a text, run together, are its non-whitespace characters. */
  lemma {:induction false} ConcatWords(s: string)
    ensures Concat(Words(s)) == NonSpace(s)
    decreases |s|
  {
    if s == "" {
    } else if IsSpace(s[0]) {
      ConcatWords(s[1..]);
    } else {
      var n := WordEnd(s);
      ConcatWords(s[n..]);
      NonSpaceWord(s[..n]);
      NonSpaceConcat(s[..n], s[n..]);
      assert s == s[..n] + s[n..];
      assert Words(s)[1..] == Words(s[n..]);
    }
  }

  lemma {:induction false} ConcatAppend(a: seq<string>, b: seq<string>)
    ensures Concat(a + b) == Concat(a) + Concat(b)
  {
    if a == [] {
      assert a + b == b;
    } else {
      ConcatAppend(a[1..], b);
      var t := a + b;
      assert t[1..] == a[1..] + b && t[0] == a[0];
    }
  }

  lemma {:induction false} AllWordsAppend(a: seq<string>, b: seq<string>)
    ensures AllWords(a + b) == AllWords(a) + AllWords(b)
  {
    if a == [] {
      assert a + b == b;
    } else {
      AllWordsAppend(a[1..], b);
      var t := a + b;
      assert t[1..] == a[1..] + b && t[0] == a[0];
    }
  }

  lemma AllWordsOne(s: string)
    ensures AllWords([s]) == Words(s)
  {
    assert [s][1..] == [];
  }

  lemma Assoc<T>(a: seq<T>, b: seq<T>, c: seq<T>)
    ensures (a + b) + c == a + (b + c)
  {
  }

  // ---------- joined and normalised text ----------

  /** `f"{a} {b}".strip()` */
  function Glue(a: string, b: string): string {
    Strip(a + " " + b)
  }

  lemma GlueTidy(a: string, b: string)
    requires Tidy(a) && Tidy(b)
    ensures Tidy(Glue(a, b)) && |Glue(a, b)| == |a| + 1 + |b|
    ensures Words(Glue(a, b)) == Words(a) + Words(b)
  {
    hide IsSpace, Strip, Words;
    TidyJoin(a, b);
    StripTidy(a + " " + b);
    WordsJoin2(a, b);
  }

  lemma {:induction false} JoinTidy(ws: seq<string>)
    requires ws != [] && forall w :: w in ws ==> Tidy(w)
    ensures Tidy(Join(ws))
    ensures Words(Join(ws)) == AllWords(ws)
  {
    if |ws| == 1 {
      AllWordsOne(ws[0]);
      assert ws == [ws[0]];
    } else {
      JoinTidy(ws[1..]);
      TidyJoin(ws[0], Join(ws[1..]));
      WordsJoin2(ws[0], Join(ws[1..]));
    }
  }

  lemma {:induction false} JoinAppend(a: seq<string>, b: seq<string>)
    requires a != [] && b != []
    ensures Join(a + b) == Join(a) + " " + Join(b)
  {
    if |a| == 1 {
      assert (a + b)[1..] == b;
    } else {
      JoinAppend(a[1..], b);
      assert (a + b)[1..] == a[1..] + b;
    }
  }

  /** `" ".join(text.split())` */
  function Normalize(s: string): string {
    Join(Words(s))
  }

  lemma WordTidy(w: string)
    requires w != "" && forall i :: 0 <= i < |w| ==> !IsSpace(w[i])
    ensures Tidy(w)
  {
    forall i | 0 <= i < |w| ensures TidyAt(w, i) {
    }
  }

  lemma {:induction false} AllWordsOfWords(ws: seq<string>)
    requires forall w :: w in ws ==> w != "" && forall i :: 0 <= i < |w| ==> !IsSpace(w[i])
    ensures AllWords(ws) == ws
  {
    if ws != [] {
      WordsSingle(ws[0]);
      AllWordsOfWords(ws[1..]);
    }
  }

  /** Normalising keeps every word and leaves a tidy text (or nothing, if there was no word). */
  lemma NormalizeTidy(s: string)
    ensures Words(Normalize(s)) == Words(s)
    ensures Normalize(s) != "" ==> Tidy(Normalize(s))
  {
    WordsFit(s);
    var ws := Words(s);
    if ws != [] {
      forall w | w in ws ensures Tidy(w) { WordTidy(w); }
      JoinTidy(ws);
      AllWordsOfWords(ws);
    }
  }
}
