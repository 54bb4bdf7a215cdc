/**
 Splitting an ASR answer into a token axis and a sentence axis, and rebuilding
 the nested answer from the two.
 */
module AsrPayload {
  import opened Wrappers

  // ---------- the nested answer and its two axes ----------

  datatype Word = Word(word: Option<string>, start: Option<real>, end: Option<real>, probability: Option<real>)

  datatype Segment = Segment(start: Option<real>, end: Option<real>, text: Option<string>,
                             avgLogprob: Option<real>, noSpeechProb: Option<real>, words: seq<Word>)

  datatype Payload = Payload(segments: seq<Segment>, language: Option<string>, duration: Option<real>)

  datatype Token = Token(text: string, start: real, end: real, probability: Option<real>)

  datatype Sentence = Sentence(start: real, end: real, text: string)

  /** The metric axes are indexed by sentence; an absent axis is an empty one. */
  datatype Meta = Meta(language: Option<string>, duration: Option<real>,
                       avgLogprob: seq<Option<real>>, noSpeechProb: seq<Option<real>>)

  datatype Axes = Axes(tokens: seq<Token>, sentences: seq<Sentence>, meta: Meta)

  // ---------- decomposing ----------

  predicate IsSentence(s: Segment) {
    s.start.Some? && s.end.Some? && s.text.Some?
  }

  predicate IsToken(w: Word) {
    w.start.Some? && w.end.Some? && w.word.Some?
  }

  function SentenceOf(s: Segment): Sentence
    requires IsSentence(s)
  {
    Sentence(s.start.value, s.end.value, s.text.value)
  }

  function TokenOf(w: Word): Token
    requires IsToken(w)
  {
    Token(w.word.value, w.start.value, w.end.value, w.probability)
  }

  /** The segments that make a sentence, in order: what all sentence-indexed axes are read off. */
  function Kept(segments: seq<Segment>): (kept: seq<Segment>)
    ensures forall s :: s in kept ==> IsSentence(s)
  {
    if segments == [] then []
    else (if IsSentence(segments[0]) then [segments[0]] else []) + Kept(segments[1..])
  }

  function TokensOf(words: seq<Word>): seq<Token> {
    if words == [] then []
    else (if IsToken(words[0]) then [TokenOf(words[0])] else []) + TokensOf(words[1..])
  }

  function AllTokens(segments: seq<Segment>): seq<Token> {
    if segments == [] then [] else TokensOf(segments[0].words) + AllTokens(segments[1..])
  }

  function MapSentences(kept: seq<Segment>): (r: seq<Sentence>)
    requires forall s :: s in kept ==> IsSentence(s)
  {
    seq(|kept|, i requires 0 <= i < |kept| => SentenceOf(kept[i]))
  }

  function Logprobs(kept: seq<Segment>): seq<Option<real>> {
    seq(|kept|, i requires 0 <= i < |kept| => kept[i].avgLogprob)
  }

  function NoSpeech(kept: seq<Segment>): seq<Option<real>> {
    seq(|kept|, i requires 0 <= i < |kept| => kept[i].noSpeechProb)
  }

  function NonEmpty(language: Option<string>): Option<string> {
    if language == Some("") then None else language
  }

  function Decompose(p: Payload): Axes {
    var kept := Kept(p.segments);
    Axes(AllTokens(p.segments), MapSentences(kept), Meta(NonEmpty(p.language), p.duration, Logprobs(kept), NoSpeech(kept)))
  }

  method CollectTokens(words: seq<Word>, before: seq<Token>) returns (tokens: seq<Token>)
    ensures tokens == before + TokensOf(words)
  {
    tokens := before;
    for i := 0 to |words|
      invariant tokens + TokensOf(words[i..]) == before + TokensOf(words)
    {
      assert words[i..][0] == words[i] && words[i..][1..] == words[i + 1..];
      if IsToken(words[i]) {
        tokens := tokens + [TokenOf(words[i])];
      }
    }
    assert words[|words|..] == [];
  }

  method DecomposeRawJson(p: Payload) returns (axes: Axes)
    ensures axes == Decompose(p)
  {
    var tokens: seq<Token> := [];
    var sentences: seq<Sentence> := [];
    var avgLogprob: seq<Option<real>>, noSpeechProb: seq<Option<real>> := [], [];
    ghost var kept: seq<Segment> := [];
    for i := 0 to |p.segments|
      invariant kept == Kept(p.segments[..i])
      invariant tokens == AllTokens(p.segments[..i])
      invariant |sentences| == |avgLogprob| == |noSpeechProb| == |kept|
      invariant forall k :: 0 <= k < |kept| ==>
        sentences[k] == SentenceOf(kept[k]) && avgLogprob[k] == kept[k].avgLogprob && noSpeechProb[k] == kept[k].noSpeechProb
    {
      var segment := p.segments[i];
      PrefixStep(p.segments, i);
      if IsSentence(segment) {
        sentences := sentences + [SentenceOf(segment)];
        avgLogprob := avgLogprob + [segment.avgLogprob];
        noSpeechProb := noSpeechProb + [segment.noSpeechProb];
        kept := kept + [segment];
      }
      tokens := CollectTokens(segment.words, tokens);
    }
    assert p.segments[..|p.segments|] == p.segments;
    axes := Axes(tokens, sentences, Meta(NonEmpty(p.language), p.duration, avgLogprob, noSpeechProb));
  }

  lemma {:induction false} KeptAppend(a: seq<Segment>, b: seq<Segment>)
    ensures Kept(a + b) == Kept(a) + Kept(b)
    ensures AllTokens(a + b) == AllTokens(a) + AllTokens(b)
  {
    hide TokensOf, IsSentence;
    var t := a + b;
    if a == [] {
      assert t == b;
    } else {
      KeptAppend(a[1..], b);
      assert t[1..] == a[1..] + b && t[0] == a[0];
      var k, x := if IsSentence(a[0]) then [a[0]] else [], TokensOf(a[0].words);
      AppendAssoc(k, Kept(a[1..]), Kept(b));
      AppendAssoc(x, AllTokens(a[1..]), AllTokens(b));
    }
  }

  lemma AppendAssoc<T>(a: seq<T>, b: seq<T>, c: seq<T>)
    ensures a + (b + c) == (a + b) + c
  {
  }

  lemma PrefixStep(segments: seq<Segment>, i: nat)
    requires i < |segments|
    ensures Kept(segments[..i + 1]) == Kept(segments[..i]) + (if IsSentence(segments[i]) then [segments[i]] else [])
    ensures AllTokens(segments[..i + 1]) == AllTokens(segments[..i]) + TokensOf(segments[i].words)
  {
    assert segments[..i + 1] == segments[..i] + [segments[i]];
    KeptAppend(segments[..i], [segments[i]]);
    assert [segments[i]][1..] == [];
    var k, t := if IsSentence(segments[i]) then [segments[i]] else [], TokensOf(segments[i].words);
    assert k + [] == k && t + [] == t;
  }

  // ---------- the axes, read off the nested answer ----------

  /** The positions in rising order, and exactly those, at which this holds. */
  ghost predicate Lists<T>(order: seq<nat>, xs: seq<T>, p: T -> bool) {
    && (forall j, k :: 0 <= j < k < |order| ==> order[j] < order[k])
    && (forall k :: 0 <= k < |order| ==> order[k] < |xs| && p(xs[order[k]]))
    && forall i :: 0 <= i < |xs| && p(xs[i]) ==> i in order
  }

  /** Both times and a text are there. */
  ghost predicate HasSentence(s: Segment) {
    s.start.Some? && s.end.Some? && s.text.Some?
  }

  ghost predicate HasToken(w: Word) {
    w.word.Some? && w.start.Some? && w.end.Some?
  }

  lemma ListsMore<T>(order: seq<nat>, xs: seq<T>, x: T, p: T -> bool)
    requires Lists(order, xs, p)
    ensures Lists(if p(x) then order + [|xs|] else order, xs + [x], p)
  {
    var more := if p(x) then order + [|xs|] else order;
    var all := xs + [x];
    forall i | 0 <= i < |all| && p(all[i]) ensures i in more {
      if i < |xs| {
        assert xs[i] == all[i] && i in order;
      } else {
        assert p(x) && more[|order|] == i;
      }
    }
  }

  ghost predicate TakenFrom(kept: seq<Segment>, segments: seq<Segment>, order: seq<nat>) {
    |kept| == |order| && forall k :: 0 <= k < |order| ==> order[k] < |segments| && kept[k] == segments[order[k]]
  }

  lemma TakenMore(kept: seq<Segment>, segments: seq<Segment>, order: seq<nat>, s: Segment)
    requires TakenFrom(kept, segments, order)
    ensures TakenFrom(kept + [s], segments + [s], order + [|segments|])
    ensures TakenFrom(kept + [], segments + [s], order)
  {
  }

  lemma SentenceThere(s: Segment)
    ensures IsSentence(s) == HasSentence(s)
  {
  }

  lemma {:induction false} KeptPositions(segments: seq<Segment>) returns (order: seq<nat>)
    ensures Lists(order, segments, HasSentence)
    ensures TakenFrom(Kept(segments), segments, order)
  {
    if segments == [] {
      order := [];
    } else {
      var n := |segments| - 1;
      var front, last := segments[..n], segments[n];
      assert segments[..n + 1] == segments && segments == front + [last];
      hide Kept, AllTokens, Lists, TakenFrom;
      PrefixStep(segments, n);
      var before := KeptPositions(front);
      ListsMore(before, front, last, HasSentence);
      TakenMore(Kept(front), front, before, last);
      hide IsSentence, HasSentence;
      assert IsSentence(last) == HasSentence(last) by { SentenceThere(last); }
      if HasSentence(last) {
        order := before + [n];
      } else {
        order := before;
      }
    }
  }

  /**
   The sentence axis holds, in order, the segments with both times and a text, and
   no other; the metric axes hold the values of the same segments.
   */
  lemma SentenceAxisIsExact(p: Payload) returns (order: seq<nat>)
    ensures Lists(order, p.segments, HasSentence)
    ensures var d := Decompose(p);
            && |d.sentences| == |d.meta.avgLogprob| == |d.meta.noSpeechProb| == |order|
            && forall k :: 0 <= k < |order| ==>
                 var s := p.segments[order[k]];
                 && s.start == Some(d.sentences[k].start) && s.end == Some(d.sentences[k].end)
                 && s.text == Some(d.sentences[k].text)
                 && s.avgLogprob == d.meta.avgLogprob[k] && s.noSpeechProb == d.meta.noSpeechProb[k]
  {
    order := KeptPositions(p.segments);
  }

  /** Every word of the answer, in order. */
  ghost function WordList(segments: seq<Segment>): seq<Word> {
    if segments == [] then [] else segments[0].words + WordList(segments[1..])
  }

  lemma {:induction false} TokensAppend(a: seq<Word>, b: seq<Word>)
    ensures TokensOf(a + b) == TokensOf(a) + TokensOf(b)
  {
    hide IsToken;
    var t := a + b;
    if a == [] {
      assert t == b;
    } else {
      TokensAppend(a[1..], b);
      assert t[1..] == a[1..] + b && t[0] == a[0];
      AppendAssoc(if IsToken(a[0]) then [TokenOf(a[0])] else [], TokensOf(a[1..]), TokensOf(b));
    }
  }

  lemma {:induction false} TokensOfAllWords(segments: seq<Segment>)
    ensures AllTokens(segments) == TokensOf(WordList(segments))
  {
    if segments != [] {
      hide TokensOf;
      TokensOfAllWords(segments[1..]);
      TokensAppend(segments[0].words, WordList(segments[1..]));
    } else {
      assert AllTokens(segments) == [] && TokensOf([]) == [];
    }
  }

  ghost predicate Tells(t: Token, w: Word) {
    w.word == Some(t.text) && w.start == Some(t.start) && w.end == Some(t.end) && w.probability == t.probability
  }

  ghost predicate ToldFrom(tokens: seq<Token>, words: seq<Word>, order: seq<nat>) {
    |tokens| == |order| && forall k :: 0 <= k < |order| ==> order[k] < |words| && Tells(tokens[k], words[order[k]])
  }

  lemma ToldMore(tokens: seq<Token>, words: seq<Word>, order: seq<nat>, w: Word)
    requires ToldFrom(tokens, words, order)
    ensures IsToken(w) ==> ToldFrom(tokens + [TokenOf(w)], words + [w], order + [|words|])
    ensures ToldFrom(tokens + [], words + [w], order)
  {
  }

  lemma {:induction false} TokenPositions(words: seq<Word>) returns (order: seq<nat>)
    ensures Lists(order, words, HasToken)
    ensures ToldFrom(TokensOf(words), words, order)
  {
    if words == [] {
      order := [];
    } else {
      hide TokensOf, Lists, ToldFrom;
      var n := |words| - 1;
      var front, last := words[..n], words[n];
      assert words == front + [last];
      var before := TokenPositions(front);
      ListsMore(before, front, last, HasToken);
      ToldMore(TokensOf(front), front, before, last);
      TokensAppend(front, [last]);
      OneToken(last);
      if HasToken(last) {
        order := before + [n];
      } else {
        order := before;
      }
    }
  }

  lemma OneToken(w: Word)
    ensures TokensOf([w]) == if IsToken(w) then [TokenOf(w)] else []
    ensures IsToken(w) == HasToken(w)
  {
    assert [w][1..] == [];
  }

  /** The token axis holds, in order, the words with a text and both times, with their own times and probability. */
  lemma TokenAxisIsExact(p: Payload) returns (order: seq<nat>)
    ensures Lists(order, WordList(p.segments), HasToken)
    ensures ToldFrom(Decompose(p).tokens, WordList(p.segments), order)
  {
    order := TokenPositions(WordList(p.segments));
    TokensOfAllWords(p.segments);
  }

  // ---------- recomposing ----------

  /** Index of the first sentence whose window holds the instant, or the number of sentences. */
  function FirstHolding(sentences: seq<Sentence>, t: real): (k: nat)
    ensures k <= |sentences|
    ensures k < |sentences| ==> sentences[k].start <= t < sentences[k].end
    ensures forall i :: 0 <= i < k ==> !(sentences[i].start <= t < sentences[i].end)
  {
    if sentences == [] || sentences[0].start <= t < sentences[0].end then 0 else 1 + FirstHolding(sentences[1..], t)
  }

  /** Index of the last sentence that starts no later than the instant, or 0. */
  function LastEarlier(sentences: seq<Sentence>, t: real): (k: nat)
    ensures sentences != [] ==> k < |sentences|
    ensures 0 < k < |sentences| ==> sentences[k].start <= t
    ensures forall i :: k < i < |sentences| ==> sentences[i].start > t
  {
    var n := |sentences|;
    if n <= 1 then 0
    else if sentences[n - 1].start <= t then n - 1
    else LastEarlier(sentences[..n - 1], t)
  }

  /** The sentence a token starting at `t` is attached to. */
  function Target(sentences: seq<Sentence>, t: real): (k: nat)
    requires sentences != []
    ensures k < |sentences|
    ensures (exists i :: 0 <= i < |sentences| && sentences[i].start <= t < sentences[i].end) ==>
              sentences[k].start <= t < sentences[k].end
              && forall i :: 0 <= i < k ==> !(sentences[i].start <= t < sentences[i].end)
    ensures !(exists i :: 0 <= i < |sentences| && sentences[i].start <= t < sentences[i].end) ==>
              (forall i :: k < i < |sentences| ==> t < sentences[i].start)
              && (k > 0 ==> sentences[k].start <= t)
  {
    var k := FirstHolding(sentences, t);
    if k < |sentences| then k else LastEarlier(sentences, t)
  }

  function WordOf(t: Token): Word {
    Word(Some(t.text), Some(t.start), Some(t.end), t.probability)
  }

  /** The tokens of one sentence, in token order. */
  function Attached(tokens: seq<Token>, sentences: seq<Sentence>, k: nat): seq<Token>
    requires sentences != []
  {
    if tokens == [] then []
    else
      var n := |tokens| - 1;
      Attached(tokens[..n], sentences, k) + (if Target(sentences, tokens[n].start) == k then [tokens[n]] else [])
  }

  function WordsOf(tokens: seq<Token>): seq<Word> {
    seq(|tokens|, i requires 0 <= i < |tokens| => WordOf(tokens[i]))
  }

  function At(values: seq<Option<real>>, k: nat): Option<real> {
    if k < |values| then values[k] else None
  }

  function Rebuilt(d: Axes, k: nat, tokens: seq<Token>): Segment
    requires k < |d.sentences|
  {
    var s := d.sentences[k];
    Segment(Some(s.start), Some(s.end), Some(s.text), At(d.meta.avgLogprob, k), At(d.meta.noSpeechProb, k),
            WordsOf(Attached(tokens, d.sentences, k)))
  }

  /** The stand-in sentence that holds the tokens when there is no sentence at all. */
  function Orphanage(tokens: seq<Token>): Segment
    requires tokens != []
  {
    Segment(Some(tokens[0].start), Some(tokens[0].end), Some(""), None, None, WordsOf(tokens))
  }

  function Recompose(d: Axes): Payload {
    Payload(if d.sentences != [] then seq(|d.sentences|, k requires 0 <= k < |d.sentences| => Rebuilt(d, k, d.tokens))
            else if d.tokens != [] then [Orphanage(d.tokens)]
            else [],
            NonEmpty(d.meta.language), d.meta.duration)
  }

  /** Without sentences the tokens stay together: one segment from the first token's start to its end, with all words in order. */
  lemma OrphansStayTogether(d: Axes)
    requires d.sentences == []
    ensures var segments := Recompose(d).segments;
            && (segments == [] <==> d.tokens == [])
            && (d.tokens != [] ==>
                  && |segments| == 1 && segments[0].start == Some(d.tokens[0].start) && segments[0].end == Some(d.tokens[0].end)
                  && segments[0].text == Some("") && segments[0].avgLogprob == None && segments[0].noSpeechProb == None
                  && |segments[0].words| == |d.tokens|
                  && forall k :: 0 <= k < |d.tokens| ==> Tells(d.tokens[k], segments[0].words[k]))
  {
  }

  /** The search of the code over the segments built so far; `None` when there is none. */
  method FindTarget(segments: seq<Segment>, t: real) returns (target: Option<nat>)
    requires forall s :: s in segments ==> IsSentence(s)
    ensures target.None? <==> segments == []
    ensures target.Some? ==> target.value < |segments| && target.value == Target(MapSentences(segments), t)
  {
    ghost var windows := MapSentences(segments);
    for i := 0 to |segments|
      invariant forall j :: 0 <= j < i ==> !(windows[j].start <= t < windows[j].end)
    {
      assert segments[i] in segments && windows[i] == SentenceOf(segments[i]);
      if segments[i].start.value <= t < segments[i].end.value {
        FirstHoldingIs(windows, t, i);
        return Some(i);
      }
    }
    if segments == [] {
      return None;
    }
    FirstHoldingIs(windows, t, |windows|);
    var k: nat := |segments|;
    while k > 0
      invariant k <= |segments| == |windows|
      invariant forall j :: k <= j < |segments| ==> windows[j].start > t
    {
      assert segments[k - 1] in segments && windows[k - 1] == SentenceOf(segments[k - 1]);
      if segments[k - 1].start.value <= t {
        LastEarlierIs(windows, t, k - 1);
        return Some(k - 1);
      }
      k := k - 1;
    }
    LastEarlierIs(windows, t, 0);
    return Some(0);
  }

  lemma {:induction false} FirstHoldingIs(sentences: seq<Sentence>, t: real, k: nat)
    requires k <= |sentences| && (k < |sentences| ==> sentences[k].start <= t < sentences[k].end)
    requires forall i :: 0 <= i < k ==> !(sentences[i].start <= t < sentences[i].end)
    ensures FirstHolding(sentences, t) == k
  {
  }

  lemma {:induction false} LastEarlierIs(sentences: seq<Sentence>, t: real, k: nat)
    requires k < |sentences| && (forall i :: k < i < |sentences| ==> sentences[i].start > t)
    requires k > 0 ==> sentences[k].start <= t
    ensures LastEarlier(sentences, t) == k
  {
  }

  ghost predicate BuiltUpTo(d: Axes, segments: seq<Segment>, tokens: seq<Token>) {
    |segments| == |d.sentences| && forall k :: 0 <= k < |segments| ==> segments[k] == Rebuilt(d, k, tokens)
  }

  method BuildSegments(d: Axes) returns (segments: seq<Segment>)
    ensures BuiltUpTo(d, segments, [])
  {
    segments := [];
    for index := 0 to |d.sentences|
      invariant |segments| == index
      invariant forall k :: 0 <= k < index ==> segments[k] == Rebuilt(d, k, [])
    {
      var s := d.sentences[index];
      segments := segments + [Segment(Some(s.start), Some(s.end), Some(s.text),
                                      At(d.meta.avgLogprob, index), At(d.meta.noSpeechProb, index), [])];
    }
  }

  /** Attaching one more token changes only the words of its own sentence. */
  lemma AttachOne(d: Axes, segments: seq<Segment>, before: seq<Token>, token: Token)
    requires d.sentences != [] && BuiltUpTo(d, segments, before)
    ensures var k := Target(d.sentences, token.start);
            BuiltUpTo(d, segments[k := segments[k].(words := segments[k].words + [WordOf(token)])], before + [token])
  {
    hide Target;
    var tokens := before + [token];
    assert tokens[..|tokens| - 1] == before;
    forall k | 0 <= k < |segments|
      ensures Attached(tokens, d.sentences, k)
              == Attached(before, d.sentences, k) + (if Target(d.sentences, token.start) == k then [token] else [])
    {
    }
    assert forall a: seq<Token> :: a + [] == a;
    assert forall a: seq<Token> :: WordsOf(a + [token]) == WordsOf(a) + [WordOf(token)];
  }

  method RecomposeRawJson(d: Axes) returns (p: Payload)
    ensures p == Recompose(d)
  {
    hide Rebuilt, Target;
    var segments := BuildSegments(d);
    for i := 0 to |d.tokens|
      invariant d.sentences != [] ==> BuiltUpTo(d, segments, d.tokens[..i])
      invariant d.sentences == [] ==> segments == if i == 0 then [] else [Orphanage(d.tokens[..i])]
    {
      var token := d.tokens[i];
      assert d.tokens[..i + 1] == d.tokens[..i] + [token];
      if d.sentences != [] {
        WindowsAreSentences(d, segments, d.tokens[..i]);
        AttachOne(d, segments, d.tokens[..i], token);
      }
      var target := FindTarget(segments, token.start);
      match target {
        case None =>
          assert d.tokens[..i] == [] && d.tokens[..i + 1] == [token];
          assert WordsOf([token]) == [WordOf(token)];
          segments := segments + [Segment(Some(token.start), Some(token.end), Some(""), None, None, [WordOf(token)])];
        case Some(k) =>
          if d.sentences == [] {
            assert k == 0 && i > 0 && segments == [Orphanage(d.tokens[..i])];
            OrphanageGrows(d.tokens[..i], token);
          }
          segments := segments[k := segments[k].(words := segments[k].words + [WordOf(token)])];
      }
    }
    assert d.tokens[..|d.tokens|] == d.tokens;
    p := Payload(segments, NonEmpty(d.meta.language), d.meta.duration);
  }

  lemma OrphanageGrows(before: seq<Token>, token: Token)
    requires before != []
    ensures Orphanage(before + [token]) == Orphanage(before).(words := Orphanage(before).words + [WordOf(token)])
  {
  }

  lemma WindowsAreSentences(d: Axes, segments: seq<Segment>, tokens: seq<Token>)
    requires BuiltUpTo(d, segments, tokens)
    ensures (forall s :: s in segments ==> IsSentence(s)) && MapSentences(segments) == d.sentences
  {
  }

  // ---------- the token axis through the rebuilt answer ----------

  /** `segments[].words[]` read in order: sentence by sentence up to `n`. */
  ghost function Spread(tokens: seq<Token>, sentences: seq<Sentence>, n: nat): seq<Token>
    requires sentences != []
  {
    if n == 0 then [] else Spread(tokens, sentences, n - 1) + Attached(tokens, sentences, n - 1)
  }

  /** Later tokens never go to earlier sentences. */
  ghost predicate Monotone(tokens: seq<Token>, sentences: seq<Sentence>)
    requires sentences != []
  {
    forall i, j :: 0 <= i < j < |tokens| ==> Target(sentences, tokens[i].start) <= Target(sentences, tokens[j].start)
  }

  ghost predicate TimeSorted(d: Axes) {
    && (forall i, j :: 0 <= i < j < |d.sentences| ==> d.sentences[i].start <= d.sentences[j].start)
    && (forall i, j :: 0 <= i < j < |d.tokens| ==> d.tokens[i].start <= d.tokens[j].start)
  }

  /** With both axes in time order, tokens are attached in order. */
  lemma SortedIsMonotone(d: Axes)
    requires d.sentences != [] && TimeSorted(d)
    ensures Monotone(d.tokens, d.sentences)
  {
    forall i, j | 0 <= i < j < |d.tokens|
      ensures Target(d.sentences, d.tokens[i].start) <= Target(d.sentences, d.tokens[j].start)
    {
      TargetMonotone(d.sentences, d.tokens[i].start, d.tokens[j].start);
    }
  }

  lemma TargetMonotone(sentences: seq<Sentence>, t: real, u: real)
    requires sentences != [] && t <= u
    requires forall i, j :: 0 <= i < j < |sentences| ==> sentences[i].start <= sentences[j].start
    ensures Target(sentences, t) <= Target(sentences, u)
  {
    var b := FirstHolding(sentences, u);
  }

  lemma {:induction false} AttachedTargets(tokens: seq<Token>, sentences: seq<Sentence>, k: nat)
    requires sentences != []
    ensures forall t :: t in Attached(tokens, sentences, k) ==> Target(sentences, t.start) == k
    decreases |tokens|
  {
    if tokens != [] {
      AttachedTargets(tokens[..|tokens| - 1], sentences, k);
    }
  }

  lemma {:induction false} SpreadTargets(tokens: seq<Token>, sentences: seq<Sentence>, n: nat)
    requires sentences != []
    ensures Monotone(Spread(tokens, sentences, n), sentences)
    ensures forall t :: t in Spread(tokens, sentences, n) ==> Target(sentences, t.start) < n
  {
    hide Target;
    if n > 0 {
      SpreadTargets(tokens, sentences, n - 1);
      AttachedTargets(tokens, sentences, n - 1);
      hide Monotone;
      MonotoneAppend(Spread(tokens, sentences, n - 1), Attached(tokens, sentences, n - 1), sentences, n - 1);
    }
  }

  /** Tokens of earlier sentences followed by tokens of one later sentence. */
  lemma MonotoneAppend(a: seq<Token>, b: seq<Token>, sentences: seq<Sentence>, k: nat)
    requires sentences != [] && Monotone(a, sentences)
    requires forall t :: t in a ==> Target(sentences, t.start) < k
    requires forall t :: t in b ==> Target(sentences, t.start) == k
    ensures Monotone(a + b, sentences)
  {
    hide Target;
    var s := a + b;
    forall i, j | 0 <= i < j < |s| ensures Target(sentences, s[i].start) <= Target(sentences, s[j].start) {
      if j < |a| {
        assert s[i] == a[i] && s[j] == a[j];
      } else {
        assert s[j] in b && (s[i] in a || s[i] in b);
      }
    }
  }

  lemma AttachedStep(tokens: seq<Token>, sentences: seq<Sentence>, k: nat)
    requires sentences != [] && tokens != []
    ensures var last, before := tokens[|tokens| - 1], tokens[..|tokens| - 1];
            Attached(tokens, sentences, k)
            == if Target(sentences, last.start) == k then Attached(before, sentences, k) + [last]
                else Attached(before, sentences, k)
  {
    hide Target;
  }

  /** Adding a last token adds it to its own sentence and leaves the others alone. */
  lemma {:induction false} SpreadStep(tokens: seq<Token>, sentences: seq<Sentence>, n: nat)
    requires sentences != [] && tokens != []
    ensures var last, before := tokens[|tokens| - 1], tokens[..|tokens| - 1];
            var k := Target(sentences, last.start);
            && (n <= k ==> Spread(tokens, sentences, n) == Spread(before, sentences, n))
            && (n == k + 1 ==> Spread(tokens, sentences, n) == Spread(before, sentences, n) + [last])
  {
    hide Target, Attached;
    if n > 0 {
      var last, before := tokens[|tokens| - 1], tokens[..|tokens| - 1];
      SpreadStep(tokens, sentences, n - 1);
      AttachedStep(tokens, sentences, n - 1);
      var s, a := Spread(before, sentences, n - 1), Attached(before, sentences, n - 1);
      assert (s + a) + [last] == s + (a + [last]);
    }
  }

  lemma {:induction false} SpreadCounts(tokens: seq<Token>, sentences: seq<Sentence>, n: nat)
    requires sentences != [] && tokens != []
    ensures var last, before := tokens[|tokens| - 1], tokens[..|tokens| - 1];
            multiset(Spread(tokens, sentences, n))
            == multiset(Spread(before, sentences, n)) + (if Target(sentences, last.start) < n then multiset{last} else multiset{})
  {
    hide Target, Attached;
    if n > 0 {
      SpreadCounts(tokens, sentences, n - 1);
      AttachedStep(tokens, sentences, n - 1);
    }
  }

  /** Rebuilding never loses or repeats a token, whatever the times are. */
  lemma {:induction false} NoTokenLost(tokens: seq<Token>, sentences: seq<Sentence>)
    requires sentences != []
    ensures multiset(Spread(tokens, sentences, |sentences|)) == multiset(tokens)
    decreases |tokens|
  {
    hide Spread, Attached;
    var n := |sentences|;
    if tokens == [] {
      SpreadOfNone(sentences, n);
    } else {
      var last, before := tokens[|tokens| - 1], tokens[..|tokens| - 1];
      NoTokenLost(before, sentences);
      SpreadCounts(tokens, sentences, n);
      assert tokens == before + [last];
      assert Target(sentences, last.start) < n;
    }
  }

  lemma {:induction false} SpreadOfNone(sentences: seq<Sentence>, n: nat)
    requires sentences != []
    ensures Spread([], sentences, n) == []
  {
    if n > 0 {
      SpreadOfNone(sentences, n - 1);
    }
  }

  lemma {:induction false} SpreadAbove(tokens: seq<Token>, sentences: seq<Sentence>, m: nat, n: nat)
    requires sentences != [] && m <= n
    requires forall t :: t in tokens ==> Target(sentences, t.start) < m
    ensures Spread(tokens, sentences, n) == Spread(tokens, sentences, m)
  {
    hide Target, Attached;
    if m < n {
      SpreadAbove(tokens, sentences, m, n - 1);
      NoneAttached(tokens, sentences, n - 1);
    }
  }

  lemma {:induction false} NoneAttached(tokens: seq<Token>, sentences: seq<Sentence>, k: nat)
    requires sentences != [] && forall t :: t in tokens ==> Target(sentences, t.start) != k
    ensures Attached(tokens, sentences, k) == []
    decreases |tokens|
  {
    if tokens != [] {
      NoneAttached(tokens[..|tokens| - 1], sentences, k);
    }
  }

  lemma {:induction false} MonotoneSpread(tokens: seq<Token>, sentences: seq<Sentence>)
    requires sentences != [] && Monotone(tokens, sentences)
    ensures Spread(tokens, sentences, |sentences|) == tokens
    decreases |tokens|
  {
    hide Target, Spread, Attached;
    var n := |sentences|;
    if tokens == [] {
      SpreadOfNone(sentences, n);
    } else {
      var last, before := tokens[|tokens| - 1], tokens[..|tokens| - 1];
      var k := Target(sentences, last.start);
      assert tokens == before + [last];
      MonotoneSpread(before, sentences);
      SpreadStep(tokens, sentences, k + 1);
      forall t | t in tokens ensures Target(sentences, t.start) < k + 1 {
        var i :| 0 <= i < |tokens| && tokens[i] == t;
      }
      SpreadAbove(tokens, sentences, k + 1, n);
      SpreadAbove(before, sentences, k + 1, n);
    }
  }

  /** The rebuilt answer lists the tokens in their own order exactly when they are attached in order. */
  lemma OrderKeptIffMonotone(tokens: seq<Token>, sentences: seq<Sentence>)
    requires sentences != []
    ensures Spread(tokens, sentences, |sentences|) == tokens <==> Monotone(tokens, sentences)
  {
    if Monotone(tokens, sentences) {
      MonotoneSpread(tokens, sentences);
    } else {
      SpreadTargets(tokens, sentences, |sentences|);
    }
  }

  // ---------- round trips ----------

  /** Axes as `decompose_raw_json` writes them: one metric slot per sentence, no empty language. */
  ghost predicate Canonical(d: Axes) {
    |d.meta.avgLogprob| == |d.meta.noSpeechProb| == |d.sentences| && d.meta.language != Some("")
  }

  lemma DecomposedIsCanonical(p: Payload)
    ensures Canonical(Decompose(p))
  {
  }

  lemma {:induction false} TokensOfWords(tokens: seq<Token>)
    ensures TokensOf(WordsOf(tokens)) == tokens
  {
    if tokens != [] {
      var ws := WordsOf(tokens);
      assert ws[1..] == WordsOf(tokens[1..]);
      TokensOfWords(tokens[1..]);
    }
  }

  ghost function Rebuild(d: Axes, n: nat): seq<Segment>
    requires n <= |d.sentences|
  {
    seq(n, k requires 0 <= k < n => Rebuilt(d, k, d.tokens))
  }

  lemma {:induction false} RebuiltAxes(d: Axes, n: nat)
    requires d.sentences != [] && n <= |d.sentences|
    ensures Kept(Rebuild(d, n)) == Rebuild(d, n)
    ensures AllTokens(Rebuild(d, n)) == Spread(d.tokens, d.sentences, n)
  {
    hide Attached, TokensOf;
    if n > 0 {
      RebuiltAxes(d, n - 1);
      var last := Rebuilt(d, n - 1, d.tokens);
      assert IsSentence(last) && last.words == WordsOf(Attached(d.tokens, d.sentences, n - 1));
      hide Kept, AllTokens, IsSentence, Rebuilt, WordsOf;
      assert Rebuild(d, n)[..n - 1] == Rebuild(d, n - 1) && Rebuild(d, n)[..n] == Rebuild(d, n);
      assert Rebuild(d, n)[n - 1] == last;
      PrefixStep(Rebuild(d, n), n - 1);
      TokensOfWords(Attached(d.tokens, d.sentences, n - 1));
      assert Rebuild(d, n) == Rebuild(d, n - 1) + [last];
    }
  }

  /**
   With at least one sentence, decomposing the rebuilt answer gives back the very
   same axes, each metric on its own sentence, exactly when tokens are attached in order.
   */
  lemma RoundTripIffMonotone(d: Axes)
    requires Canonical(d) && d.sentences != []
    ensures Decompose(Recompose(d)) == d <==> Monotone(d.tokens, d.sentences)
    ensures Decompose(Recompose(d)).sentences == d.sentences && Decompose(Recompose(d)).meta == d.meta
  {
    hide Rebuilt, Monotone, Spread, AllTokens;
    var n := |d.sentences|;
    RebuiltAxes(d, n);
    RebuiltSentences(d);
    OrderKeptIffMonotone(d.tokens, d.sentences);
    assert Recompose(d).segments == Rebuild(d, n);
  }

  lemma RebuiltSentences(d: Axes)
    requires Canonical(d) && d.sentences != []
    ensures var segments := Rebuild(d, |d.sentences|);
            && (forall s :: s in segments ==> IsSentence(s)) && MapSentences(segments) == d.sentences
            && Logprobs(segments) == d.meta.avgLogprob && NoSpeech(segments) == d.meta.noSpeechProb
  {
    hide Attached;
  }

  /** The stored form is lossless for axes in time order with at least one sentence. */
  lemma RoundTrip(d: Axes)
    requires Canonical(d) && d.sentences != [] && TimeSorted(d)
    ensures Decompose(Recompose(d)) == d
  {
    SortedIsMonotone(d);
    RoundTripIffMonotone(d);
  }

  /**
   Without any sentence the tokens still come back in order, but they come back
   with a sentence nobody said: the round trip is exact only when there is no token either.
   */
  lemma RoundTripWithoutSentences(d: Axes)
    requires Canonical(d) && d.sentences == []
    ensures Decompose(Recompose(d)).tokens == d.tokens
    ensures Decompose(Recompose(d)) == d <==> d.tokens == []
  {
    var p := Recompose(d);
    if d.tokens != [] {
      var o := Orphanage(d.tokens);
      assert p.segments == [o] && p.segments[1..] == [];
      TokensOfWords(d.tokens);
      assert AllTokens(p.segments) == d.tokens;
      assert Kept(p.segments) == [o];
    }
  }

  /** Two tokens out of time order: the rebuilt answer lists them the other way round. */
  lemma UnsortedTokensAreReordered()
    ensures var s := [Sentence(0.0, 1.0, "a"), Sentence(1.0, 2.0, "b")];
            var late, early := Token("b", 1.0, 2.0, None), Token("a", 0.0, 1.0, None);
            Spread([late, early], s, 2) == [early, late]
  {
    var s := [Sentence(0.0, 1.0, "a"), Sentence(1.0, 2.0, "b")];
    var late, early := Token("b", 1.0, 2.0, None), Token("a", 0.0, 1.0, None);
    assert FirstHolding(s, 0.0) == 0 && FirstHolding(s, 1.0) == 1;
    var ts := [late, early];
    assert ts[..1] == [late] && [late][..0] == [];
    assert Attached([late], s, 0) == [] && Attached([late], s, 1) == [late];
    assert Attached(ts, s, 0) == [early] && Attached(ts, s, 1) == [late];
    assert Spread(ts, s, 0) == [] && Spread(ts, s, 1) == [early];
  }
}
