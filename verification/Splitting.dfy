/**
 Cutting one long turn into pieces that fit the size cap.
 Each loop of the source is a method proved equal to a function on values; the
 lemmas then say what those functions keep: every word, in order, cut only when
 it alone is longer than the cap.
 */
module Splitting {
  import opened Text

  /** The module-wide floor below which a last piece counts as a stub. */
  const MIN_CHARS := 100

  // ---------- sentences ----------

  /** First index i >= from where a whitespace run follows a sentence ender, or the length. */
  function FirstBreak(s: string, from: nat): (i: nat)
    requires 1 <= from
    ensures i < |s| ==> from <= i && IsSpace(s[i]) && IsEnder(s[i - 1])
    ensures i <= |s| || i == from
    decreases |s| - from
  {
    if from >= |s| then |s|
    else if IsSpace(s[from]) && IsEnder(s[from - 1]) then from
    else FirstBreak(s, from + 1)
  }

  /** The regex split on whitespace after a sentence ender, blank parts dropped. */
  function Sentences(s: string): (parts: seq<string>)
    decreases |s|
  {
    if Strip(s) == "" then []
    else
      var i := FirstBreak(s, 1);
      if i >= |s| then [s] else [s[..i]] + Sentences(TrimLeft(s[i..]))
  }

  lemma {:induction false} SentencesTidy(s: string)
    requires Tidy(s)
    ensures Sentences(s) != []
    ensures forall t :: t in Sentences(s) ==> Tidy(t)
    ensures Join(Sentences(s)) == s
    ensures AllWords(Sentences(s)) == Words(s)
    decreases |s|
  {
    hide IsSpace, IsEnder;
    StripTidy(s);
    var i := FirstBreak(s, 1);
    if i >= |s| {
      AllWordsOne(s);
    } else {
      TidyCut(s, i);
      var rest := s[i + 1..];
      TidyEnds(rest);
      assert TrimLeft(s[i..]) == TrimLeft(s[i..][1..]);
      assert s[i..][1..] == rest;
      SentencesTidy(rest);
      var tail := Sentences(rest);
      assert Sentences(s) == [s[..i]] + tail;
      assert Sentences(s)[1..] == tail;
      WordsJoin2(s[..i], rest);
    }
  }

  // ---------- cutting an over-long sentence ----------

  /** `s.rfind(" ", 0, end)` */
  function RFindBlank(s: string, end: nat): (i: int)
    requires end <= |s|
    ensures -1 <= i < end
    ensures 0 <= i ==> s[i] == ' '
    ensures forall k :: i < k < end ==> s[k] != ' '
  {
    if end == 0 then -1 else if s[end - 1] == ' ' then end - 1 else RFindBlank(s, end - 1)
  }

  function CutAt(s: string, maxChars: nat): (cut: nat)
    requires 1 <= maxChars < |s|
    ensures 1 <= cut <= maxChars
  {
    var blank := RFindBlank(s, maxChars);
    if blank <= 0 then maxChars else blank
  }

  datatype Cut = Cut(pieces: seq<string>, rest: string)

  /** The pieces cut off a sentence longer than the cap, and what is left of it. */
  function HardCut(s: string, maxChars: nat): Cut
    requires 1 <= maxChars
    decreases |s|
  {
    if |s| <= maxChars then Cut([], s)
    else
      var cut := CutAt(s, maxChars);
      var c := HardCut(Strip(s[cut..]), maxChars);
      Cut([Strip(s[..cut])] + c.pieces, c.rest)
  }

  method CutLongSentence(s0: string, maxChars: nat) returns (pieces: seq<string>, rest: string)
    requires 1 <= maxChars
    ensures Cut(pieces, rest) == HardCut(s0, maxChars)
  {
    hide IsSpace, Strip, CutAt;
    pieces, rest := [], s0;
    while |rest| > maxChars
      invariant HardCut(s0, maxChars) == Cut(pieces + HardCut(rest, maxChars).pieces, HardCut(rest, maxChars).rest)
      decreases |rest|
    {
      var cut := CutAt(rest, maxChars);
      ghost var tail := HardCut(Strip(rest[cut..]), maxChars).pieces;
      assert pieces + ([Strip(rest[..cut])] + tail) == (pieces + [Strip(rest[..cut])]) + tail;
      pieces := pieces + [Strip(rest[..cut])];
      rest := Strip(rest[cut..]);
    }
  }

  // ---------- the word-level account of cutting ----------

  /** A word as the cap allows it: whole if it fits, else in cap-sized parts. */
  function Frag(w: string, maxChars: nat): seq<string>
    requires 1 <= maxChars
    decreases |w|
  {
    if |w| <= maxChars then [w] else [w[..maxChars]] + Frag(w[maxChars..], maxChars)
  }

  function FragAll(ws: seq<string>, maxChars: nat): seq<string>
    requires 1 <= maxChars
  {
    if ws == [] then [] else Frag(ws[0], maxChars) + FragAll(ws[1..], maxChars)
  }

  lemma {:induction false} FragAllAppend(a: seq<string>, b: seq<string>, maxChars: nat)
    requires 1 <= maxChars
    ensures FragAll(a + b, maxChars) == FragAll(a, maxChars) + FragAll(b, maxChars)
  {
    var t := a + b;
    if a == [] {
      assert t == b;
    } else {
      FragAllAppend(a[1..], b, maxChars);
      assert t[1..] == a[1..] + b && t[0] == a[0];
    }
  }

  /** Words within the cap are never cut. */
  lemma {:induction false} FragAllFits(ws: seq<string>, maxChars: nat)
    requires 1 <= maxChars && forall w :: w in ws ==> |w| <= maxChars
    ensures FragAll(ws, maxChars) == ws
  {
    if ws != [] {
      FragAllFits(ws[1..], maxChars);
    }
  }

  lemma FragText(s: string, maxChars: nat)
    requires 1 <= maxChars && |s| <= maxChars
    ensures FragAll(Words(s), maxChars) == Words(s)
  {
    WordsFit(s);
    FragAllFits(Words(s), maxChars);
  }

  lemma {:induction false} ConcatFrag(w: string, maxChars: nat)
    requires 1 <= maxChars
    ensures Concat(Frag(w, maxChars)) == w
    decreases |w|
  {
    if |w| > maxChars {
      ConcatFrag(w[maxChars..], maxChars);
      assert Frag(w, maxChars)[1..] == Frag(w[maxChars..], maxChars);
    } else {
      assert [w][1..] == [];
    }
  }

  /** Cutting words loses no character. */
  lemma {:induction false} ConcatFragAll(ws: seq<string>, maxChars: nat)
    requires 1 <= maxChars
    ensures Concat(FragAll(ws, maxChars)) == Concat(ws)
  {
    if ws != [] {
      ConcatFragAll(ws[1..], maxChars);
      ConcatFrag(ws[0], maxChars);
      ConcatAppend(Frag(ws[0], maxChars), FragAll(ws[1..], maxChars));
    }
  }

  lemma BlankIsTidyBlank(s: string, i: nat)
    requires Tidy(s) && i < |s| && IsSpace(s[i])
    ensures s[i] == ' '
  {
    assert TidyAt(s, i);
  }

  /** One cut: the word list of the sentence is the piece's words, then the remainder's. */
  lemma CutStep(s: string, maxChars: nat)
    requires Tidy(s) && 1 <= maxChars < |s|
    ensures var cut := CutAt(s, maxChars);
            && Tidy(Strip(s[..cut])) && |Strip(s[..cut])| <= maxChars
            && Tidy(Strip(s[cut..]))
            && FragAll(Words(s), maxChars) == Words(Strip(s[..cut])) + FragAll(Words(Strip(s[cut..])), maxChars)
  {
    var cut := CutAt(s, maxChars);
    var head, tail := s[..cut], s[cut..];
    StripSuffix(s, cut);
    if IsSpace(s[cut]) {
      TidyCut(s, cut);
      StripTidy(head);
      FragText(head, maxChars);
      WordsSplit(s, cut);
      FragAllAppend(Words(head), Words(s[cut + 1..]), maxChars);
    } else {
      CutInsideWord(s, maxChars);
    }
  }

  /** The cap falls inside a word only if that word fills the text up to the cap. */
  lemma CutMidWord(s: string, maxChars: nat)
    requires Tidy(s) && 1 <= maxChars < |s| && !IsSpace(s[CutAt(s, maxChars)])
    ensures CutAt(s, maxChars) == maxChars
    ensures forall k :: 0 <= k <= maxChars ==> !IsSpace(s[k])
  {
    TidyEnds(s);
    forall k | 0 <= k < maxChars ensures !IsSpace(s[k]) {
      if IsSpace(s[k]) {
        BlankIsTidyBlank(s, k);
      }
    }
  }

  lemma CutInsideWord(s: string, maxChars: nat)
    requires Tidy(s) && 1 <= maxChars < |s| && !IsSpace(s[CutAt(s, maxChars)])
    ensures CutAt(s, maxChars) == maxChars
    ensures Tidy(s[..maxChars]) && Strip(s[..maxChars]) == s[..maxChars]
    ensures Tidy(s[maxChars..]) && Strip(s[maxChars..]) == s[maxChars..]
    ensures FragAll(Words(s), maxChars) == Words(s[..maxChars]) + FragAll(Words(s[maxChars..]), maxChars)
  {
    hide IsSpace, Strip, Words, CutAt, Tidy;
    var head, tail := s[..maxChars], s[maxChars..];
    CutMidWord(s, maxChars);
    StripSuffix(s, maxChars);
    WordsFit(tail);
    WordTidy(head);
    StripTidy(head);
    WordsSingle(head);
    WordsInnerCut(s, maxChars);
    FragFirst(Words(s), head, Words(tail), maxChars);
  }

  lemma FragFirst(whole: seq<string>, head: string, part: seq<string>, maxChars: nat)
    requires 1 <= maxChars == |head| && whole != [] && part != [] && part[0] != ""
    requires whole[0] == head + part[0] && whole[1..] == part[1..]
    ensures FragAll(whole, maxChars) == [head] + FragAll(part, maxChars)
  {
    assert whole[0][..maxChars] == head && whole[0][maxChars..] == part[0];
    Assoc([head], Frag(part[0], maxChars), FragAll(part[1..], maxChars));
  }

  lemma {:induction false} HardCutKeepsWords(s: string, maxChars: nat)
    requires Tidy(s) && 1 <= maxChars
    ensures var c := HardCut(s, maxChars);
            && Tidy(c.rest) && |c.rest| <= maxChars
            && (forall p :: p in c.pieces ==> Tidy(p) && |p| <= maxChars)
            && AllWords(c.pieces) + Words(c.rest) == FragAll(Words(s), maxChars)
    decreases |s|
  {
    hide IsSpace, Strip, Words, CutAt;
    if |s| <= maxChars {
      FragText(s, maxChars);
    } else {
      CutStep(s, maxChars);
      var cut := CutAt(s, maxChars);
      var head, tail := Strip(s[..cut]), Strip(s[cut..]);
      HardCutKeepsWords(tail, maxChars);
      var c := HardCut(tail, maxChars);
      AllWordsAppend([head], c.pieces);
      AllWordsOne(head);
      Assoc(Words(head), AllWords(c.pieces), Words(c.rest));
    }
  }

  // ---------- packing sentences ----------

  function Candidate(current: string, sentence: string): string {
    if current != "" then Glue(current, sentence) else sentence
  }

  function Emit(current: string): seq<string> {
    if current != "" then [current] else []
  }

  /** Sentences greedily packed into pieces, starting from an open piece `current`. */
  function Pack(sentences: seq<string>, current: string, maxChars: nat): seq<string>
    requires 1 <= maxChars
  {
    if sentences == [] then Emit(current)
    else
      var next := Candidate(current, sentences[0]);
      if |next| <= maxChars then Pack(sentences[1..], next, maxChars)
      else
        var c := HardCut(sentences[0], maxChars);
        Emit(current) + c.pieces + Pack(sentences[1..], c.rest, maxChars)
  }

  method PackSentences(sentences: seq<string>, maxChars: nat) returns (pieces: seq<string>)
    requires 1 <= maxChars
    ensures pieces == Pack(sentences, "", maxChars)
  {
    hide IsSpace, Strip, HardCut, Candidate;
    pieces := [];
    var current := "";
    for i := 0 to |sentences|
      invariant pieces + Pack(sentences[i..], current, maxChars) == Pack(sentences, "", maxChars)
    {
      var sentence := sentences[i];
      ghost var rest := sentences[i..];
      assert rest[0] == sentence && rest[1..] == sentences[i + 1..];
      assert pieces + [] == pieces;
      var candidate := Candidate(current, sentence);
      if |candidate| <= maxChars {
        current := candidate;
      } else {
        var cut, left := CutLongSentence(sentence, maxChars);
        ghost var tail := Pack(sentences[i + 1..], left, maxChars);
        Assoc(pieces, Emit(current) + cut, tail);
        Assoc(pieces, Emit(current), cut);
        if current != "" {
          pieces := pieces + [current];
        }
        pieces := pieces + cut;
        current := left;
      }
    }
    assert sentences[|sentences|..] == [];
    if current != "" {
      pieces := pieces + [current];
    }
  }

  lemma {:induction false} PackFits(sentences: seq<string>, current: string, maxChars: nat)
    requires 1 <= maxChars && forall t :: t in sentences ==> Tidy(t)
    requires current == "" || (Tidy(current) && |current| <= maxChars)
    ensures forall p :: p in Pack(sentences, current, maxChars) ==> Tidy(p) && |p| <= maxChars
  {
    hide IsSpace, Strip, HardCut, Tidy, Candidate;
    if sentences != [] {
      var s := sentences[0];
      var next := Candidate(current, s);
      CandidateTidy(current, s);
      if |next| <= maxChars {
        PackFits(sentences[1..], next, maxChars);
      } else {
        HardCutKeepsWords(s, maxChars);
        PackFits(sentences[1..], HardCut(s, maxChars).rest, maxChars);
      }
    }
  }

  lemma {:induction false} PackKeepsWords(sentences: seq<string>, current: string, maxChars: nat)
    requires 1 <= maxChars && forall t :: t in sentences ==> Tidy(t)
    requires current == "" || (Tidy(current) && |current| <= maxChars)
    ensures AllWords(Pack(sentences, current, maxChars)) == Words(current) + FragAll(AllWords(sentences), maxChars)
  {
    hide IsSpace, Strip, HardCut, Words, Candidate, Tidy;
    AllWordsOne(current);
    EmptyHasNoWords();
    if sentences == [] {
      assert Words(current) + [] == Words(current);
    } else {
      var s, rest := sentences[0], sentences[1..];
      var next := Candidate(current, s);
      CandidateTidy(current, s);
      FragAllAppend(Words(s), AllWords(rest), maxChars);
      if |next| <= maxChars {
        PackKeepsWords(rest, next, maxChars);
        FragText(s, maxChars);
      } else {
        HardCutKeepsWords(s, maxChars);
        var c := HardCut(s, maxChars);
        PackKeepsWords(rest, c.rest, maxChars);
        PackEmits(Emit(current), c.pieces, Pack(rest, c.rest, maxChars), Words(current), Words(c.rest),
                  FragAll(AllWords(rest), maxChars));
      }
    }
  }

  lemma PackEmits(open: seq<string>, cut: seq<string>, packed: seq<string>,
                  current: seq<string>, left: seq<string>, rest: seq<string>)
    requires AllWords(open) == current && AllWords(packed) == left + rest
    ensures AllWords(open + cut + packed) == current + ((AllWords(cut) + left) + rest)
  {
    AllWordsAppend(open + cut, packed);
    AllWordsAppend(open, cut);
    hide AllWords;
    var c := AllWords(cut);
    Assoc(c, left, rest);
    Assoc(current, c, left + rest);
  }

  lemma EmptyHasNoWords()
    ensures Words("") == []
  {
  }

  lemma CandidateTidy(current: string, s: string)
    requires Tidy(s) && (current == "" || Tidy(current))
    ensures Tidy(Candidate(current, s)) && |Candidate(current, s)| == (if current == "" then 0 else |current| + 1) + |s|
    ensures Words(Candidate(current, s)) == Words(current) + Words(s)
  {
    hide Glue, Words, IsSpace;
    if current != "" {
      GlueTidy(current, s);
    } else {
      EmptyHasNoWords();
    }
  }

  /** Packing is greedy: with no over-long sentence, no two neighbouring pieces could share one piece. */
  lemma {:induction false} PackIsGreedy(sentences: seq<string>, current: string, maxChars: nat)
    requires 1 <= maxChars && forall t :: t in sentences ==> Tidy(t) && |t| <= maxChars
    requires current == "" || (Tidy(current) && |current| <= maxChars)
    ensures var ps := Pack(sentences, current, maxChars);
            && (current != "" ==> ps != [] && |current| <= |ps[0]|)
            && (current == "" && sentences != [] ==> ps != [] && |sentences[0]| <= |ps[0]|)
            && forall i :: 0 <= i < |ps| - 1 ==> |ps[i]| + 1 + |ps[i + 1]| > maxChars
  {
    hide IsSpace, Strip, Words, Candidate;
    if sentences != [] {
      var s := sentences[0];
      var next := Candidate(current, s);
      CandidateTidy(current, s);
      if |next| <= maxChars {
        PackIsGreedy(sentences[1..], next, maxChars);
      } else {
        assert HardCut(s, maxChars) == Cut([], s);
        PackIsGreedy(sentences[1..], s, maxChars);
        var tail := Pack(sentences[1..], s, maxChars);
        assert Pack(sentences, current, maxChars) == [current] + tail;
      }
    }
  }

  // ---------- rebalancing a stub ----------

  datatype Donation = Donation(donors: seq<string>, moved: seq<string>)

  /** Sentences handed from the end of `donors` to the stub until it clears the floor. */
  function Donate(donors: seq<string>, moved: seq<string>, stub: string): Donation {
    if donors != [] && |Join(moved + [stub])| < MIN_CHARS
    then Donate(donors[..|donors| - 1], [donors[|donors| - 1]] + moved, stub)
    else Donation(donors, moved)
  }

  method MoveDonors(donors0: seq<string>, stub: string) returns (donors: seq<string>, moved: seq<string>)
    ensures Donation(donors, moved) == Donate(donors0, [], stub)
  {
    donors, moved := donors0, [];
    while donors != [] && |Join(moved + [stub])| < MIN_CHARS
      invariant Donate(donors, moved, stub) == Donate(donors0, [], stub)
      decreases |donors|
    {
      moved := [donors[|donors| - 1]] + moved;
      donors := donors[..|donors| - 1];
    }
  }

  /** What becomes of the last two pieces when the last one is a stub. */
  function RebalancedPair(previous: string, stub: string, maxChars: nat): seq<string> {
    var merged := Glue(previous, stub);
    if |merged| <= maxChars then [merged]
    else
      var d := Donate(Sentences(previous), [], stub);
      var head, tail := Strip(Join(d.donors)), Strip(Join(d.moved + [stub]));
      if head != "" && |head| >= MIN_CHARS && |tail| <= maxChars then [head, tail] else [previous, stub]
  }

  function Rebalance(pieces: seq<string>, maxChars: nat): seq<string> {
    var n := |pieces|;
    if n > 1 && |pieces[n - 1]| < MIN_CHARS
    then pieces[..n - 2] + RebalancedPair(pieces[n - 2], pieces[n - 1], maxChars)
    else pieces
  }

  lemma {:induction false} DonateKeeps(donors: seq<string>, moved: seq<string>, stub: string)
    requires Tidy(stub) && (forall t :: t in donors ==> Tidy(t)) && (forall t :: t in moved ==> Tidy(t))
    ensures var d := Donate(donors, moved, stub);
            && (forall t :: t in d.donors ==> Tidy(t)) && (forall t :: t in d.moved ==> Tidy(t))
            && d.donors + d.moved == donors + moved && d.donors <= donors
            && (d.donors == [] || |Join(d.moved + [stub])| >= MIN_CHARS)
    decreases |donors|
  {
    if donors != [] && |Join(moved + [stub])| < MIN_CHARS {
      var last := donors[|donors| - 1];
      DonateKeeps(donors[..|donors| - 1], [last] + moved, stub);
      assert donors[..|donors| - 1] + ([last] + moved) == donors + moved;
    }
  }

  lemma JoinNonEmptyTidy(ws: seq<string>)
    requires ws != [] && forall t :: t in ws ==> Tidy(t)
    ensures Tidy(Join(ws)) && Strip(Join(ws)) == Join(ws) && Words(Join(ws)) == AllWords(ws)
  {
    JoinTidy(ws);
    StripTidy(Join(ws));
  }

  lemma DonationKeepsWords(previous: string, stub: string)
    requires Tidy(previous) && Tidy(stub)
    ensures var d := Donate(Sentences(previous), [], stub);
            var head, tail := Strip(Join(d.donors)), Strip(Join(d.moved + [stub]));
            && Tidy(tail)
            && (head != "" ==> Tidy(head) && |head| <= |previous|)
            && (head != "" ==> Words(head) + Words(tail) == Words(previous) + Words(stub))
  {
    hide IsSpace, Strip, Words, Sentences, Donate, Tidy;
    SentencesTidy(previous);
    var parts := Sentences(previous);
    DonateKeeps(parts, [], stub);
    var d := Donate(parts, [], stub);
    assert parts + [] == parts;
    JoinNonEmptyTidy(d.moved + [stub]);
    AllWordsAppend(d.moved, [stub]);
    AllWordsOne(stub);
    if d.donors != [] {
      JoinNonEmptyTidy(d.donors);
      AllWordsAppend(d.donors, d.moved);
      JoinPrefix(d.donors, d.moved);
    } else {
      StripEmpty();
    }
  }

  lemma StripEmpty()
    ensures Strip("") == ""
  {
  }

  lemma JoinPrefix(a: seq<string>, b: seq<string>)
    requires a != []
    ensures |Join(a)| <= |Join(a + b)|
  {
    if b != [] {
      JoinAppend(a, b);
    } else {
      assert a + b == a;
    }
  }

  ghost predicate Keeps(pieces: seq<string>, words: seq<string>, maxChars: nat) {
    (forall p :: p in pieces ==> Tidy(p) && |p| <= maxChars) && AllWords(pieces) == words
  }

  lemma KeepsOne(a: string, maxChars: nat)
    requires Tidy(a) && |a| <= maxChars
    ensures Keeps([a], Words(a), maxChars)
  {
    hide Tidy, Words;
    AllWordsOne(a);
  }

  lemma KeepsPair(a: string, b: string, maxChars: nat)
    requires Tidy(a) && Tidy(b) && |a| <= maxChars && |b| <= maxChars
    ensures Keeps([a, b], Words(a) + Words(b), maxChars)
  {
    hide Tidy, Words;
    AllWordsPair(a, b);
  }

  /** The two last pieces keep their words and their cap through the rebalance. */
  lemma RebalancePairKeepsWords(previous: string, stub: string, maxChars: nat)
    requires Tidy(previous) && Tidy(stub) && |previous| <= maxChars && |stub| <= maxChars
    ensures Keeps(RebalancedPair(previous, stub, maxChars), Words(previous) + Words(stub), maxChars)
  {
    hide IsSpace, Glue, Strip, Words, Sentences, Donate, Tidy, Join, Keeps;
    var d := Donate(Sentences(previous), [], stub);
    var merged, head, tail := Glue(previous, stub), Strip(Join(d.donors)), Strip(Join(d.moved + [stub]));
    if |merged| <= maxChars {
      GlueTidy(previous, stub);
      KeepsOne(merged, maxChars);
    } else if head != "" && |head| >= MIN_CHARS && |tail| <= maxChars {
      DonationKeepsWords(previous, stub);
      KeepsPair(head, tail, maxChars);
    } else {
      KeepsPair(previous, stub, maxChars);
    }
  }

  lemma RebalanceKeepsWords(pieces: seq<string>, maxChars: nat)
    requires forall p :: p in pieces ==> Tidy(p) && |p| <= maxChars
    ensures forall p :: p in Rebalance(pieces, maxChars) ==> Tidy(p) && |p| <= maxChars
    ensures AllWords(Rebalance(pieces, maxChars)) == AllWords(pieces)
  {
    hide IsSpace, Words, Tidy, RebalancedPair;
    var n := |pieces|;
    if n > 1 && |pieces[n - 1]| < MIN_CHARS {
      var stub, previous, kept := pieces[n - 1], pieces[n - 2], pieces[..n - 2];
      RebalancePairKeepsWords(previous, stub, maxChars);
      assert pieces == kept + [previous, stub];
      AllWordsAppend(kept, [previous, stub]);
      AllWordsAppend(kept, RebalancedPair(previous, stub, maxChars));
      AllWordsPair(previous, stub);
    }
  }

  lemma AllWordsPair(a: string, b: string)
    ensures AllWords([a, b]) == Words(a) + Words(b)
  {
    assert [a, b] == [a] + [b];
    AllWordsAppend([a], [b]);
    AllWordsOne(a);
    AllWordsOne(b);
  }

  // ---------- the whole split ----------

  function SplitLong(text: string, maxChars: nat): seq<string>
    requires 1 <= maxChars
  {
    var pieces := Rebalance(Pack(Sentences(text), "", maxChars), maxChars);
    if pieces != [] then pieces else [if |text| <= maxChars then text else text[..maxChars]]
  }

  method RebalanceStub(previous: string, stub: string, maxChars: nat) returns (pair: seq<string>)
    ensures pair == RebalancedPair(previous, stub, maxChars)
  {
    hide Sentences, Strip;
    var merged := Glue(previous, stub);
    if |merged| <= maxChars {
      return [merged];
    }
    var donors, moved := MoveDonors(Sentences(previous), stub);
    var head, tail := Strip(Join(donors)), Strip(Join(moved + [stub]));
    pair := if head != "" && |head| >= MIN_CHARS && |tail| <= maxChars then [head, tail] else [previous, stub];
  }

  method SplitLongText(text: string, maxChars: nat) returns (pieces: seq<string>)
    requires 1 <= maxChars
    ensures pieces == SplitLong(text, maxChars)
  {
    hide Sentences, Pack, RebalancedPair;
    pieces := PackSentences(Sentences(text), maxChars);
    if |pieces| > 1 && |pieces[|pieces| - 1]| < MIN_CHARS {
      var stub, previous := pieces[|pieces| - 1], pieces[|pieces| - 2];
      var pair := RebalanceStub(previous, stub, maxChars);
      pieces := pieces[..|pieces| - 2] + pair;
    }
    if pieces == [] {
      pieces := [if |text| <= maxChars then text else text[..maxChars]];
    }
  }

  /**
   Splitting a tidy text keeps every word in order, cuts a word only when it alone
   is longer than the cap, and never leaves a piece over the cap.
   */
  lemma SplitKeepsWords(text: string, maxChars: nat)
    requires Tidy(text) && 1 <= maxChars
    ensures var pieces := SplitLong(text, maxChars);
            && pieces != []
            && (forall p :: p in pieces ==> Tidy(p) && |p| <= maxChars)
            && AllWords(pieces) == FragAll(Words(text), maxChars)
  {
    SentencesTidy(text);
    PackKeepsWords(Sentences(text), "", maxChars);
    PackFits(Sentences(text), "", maxChars);
    var packed := Pack(Sentences(text), "", maxChars);
    RebalanceKeepsWords(packed, maxChars);
    WordsTidyNonEmpty(text);
    var w := Words(text);
    assert Frag(w[0], maxChars) != [];
    assert AllWords(Rebalance(packed, maxChars)) != [];
  }

  /** A text over the cap always yields at least two pieces. */
  lemma SplitIsProper(text: string, maxChars: nat)
    requires Tidy(text) && 1 <= maxChars < |text|
    ensures |SplitLong(text, maxChars)| >= 2
  {
    SplitKeepsWords(text, maxChars);
    var pieces := SplitLong(text, maxChars);
    if |pieces| == 1 {
      AllWordsOne(pieces[0]);
      assert pieces == [pieces[0]];
      JoinOfWords(text);
      JoinOfWords(pieces[0]);
      WordsFit(pieces[0]);
      FragStable(Words(text), maxChars);
    }
  }

  /** A tidy text is determined by its words. */
  lemma {:induction false} JoinOfWords(s: string)
    requires Tidy(s)
    ensures Join(Words(s)) == s
    decreases |s|
  {
    TidyEnds(s);
    var n := WordEnd(s);
    if n == |s| {
      WordsSingle(s);
    } else {
      TidyCut(s, n);
      WordsSplit(s, n);
      WordsSingle(s[..n]);
      JoinOfWords(s[n + 1..]);
      WordsTidyNonEmpty(s[n + 1..]);
      assert Words(s)[1..] == Words(s[n + 1..]);
    }
  }

  /** A fragmented word list that joins into the cap was not cut at all... or it is longer than the cap. */
  lemma {:induction false} FragStable(ws: seq<string>, maxChars: nat)
    requires 1 <= maxChars && ws != []
    ensures FragAll(ws, maxChars) == ws || |Join(FragAll(ws, maxChars))| > maxChars
    ensures FragAll(ws, maxChars) != []
  {
    FragStableWord(ws[0], maxChars);
    if |ws| == 1 {
      assert FragAll(ws[1..], maxChars) == [];
    } else {
      FragStable(ws[1..], maxChars);
      JoinAppend(Frag(ws[0], maxChars), FragAll(ws[1..], maxChars));
    }
  }

  lemma FragStableWord(w: string, maxChars: nat)
    requires 1 <= maxChars
    ensures Frag(w, maxChars) != []
    ensures Frag(w, maxChars) == [w] || |Join(Frag(w, maxChars))| > maxChars
  {
    if |w| > maxChars {
      var tail := Frag(w[maxChars..], maxChars);
      assert tail != [];
      JoinAppend([w[..maxChars]], tail);
    }
  }
}
