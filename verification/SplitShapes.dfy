/**
 Where a long turn is cut: at the ends of sentences, inside a sentence only at
 the last blank that fits, and the last two pieces evened out whenever some
 sentence end allows it.
 */
module SplitShapes {
  import opened Text
  import opened Splitting

  // ---------- sentences ----------

  /** A full stop, an exclamation mark, a question mark or an ellipsis. */
  ghost predicate EndsSentence(c: char) {
    c in {'.', '!', '?', '\U{2026}'}
  }

  /** A sentence ends between this character and the next. */
  ghost predicate EndsAt(s: string, i: int) {
    0 <= i && i + 1 < |s| && EndsSentence(s[i]) && IsSpace(s[i + 1])
  }

  ghost predicate OneSentence(s: string) {
    forall i :: !EndsAt(s, i)
  }

  lemma {:induction false} FirstBreakIsFirst(s: string, from: nat)
    requires 1 <= from
    ensures forall i :: from - 1 <= i < FirstBreak(s, from) - 1 ==> !EndsAt(s, i)
    ensures FirstBreak(s, from) < |s| ==> EndsAt(s, FirstBreak(s, from) - 1)
    decreases |s| - from
  {
    hide IsSpace;
    if from < |s| {
      assert IsEnder(s[from - 1]) <==> EndsSentence(s[from - 1]);
      if !(IsSpace(s[from]) && IsEnder(s[from - 1])) {
        FirstBreakIsFirst(s, from + 1);
      }
    }
  }

  lemma SentencesUnfold(s: string)
    requires Tidy(s)
    ensures var i := FirstBreak(s, 1);
            if i >= |s| then Sentences(s) == [s]
            else i + 1 < |s| && Tidy(s[i + 1..]) && Sentences(s) == [s[..i]] + Sentences(s[i + 1..])
  {
    var i := FirstBreak(s, 1);
    if i < |s| {
      TrimBlank(s, i);
    }
    hide IsSpace, IsEnder, Strip, TrimLeft, FirstBreak;
    StripTidy(s);
    NotEmpty(s);
    hide Tidy;
  }

  lemma TrimBlank(s: string, i: nat)
    requires Tidy(s) && i < |s| && IsSpace(s[i])
    ensures i + 1 < |s| && Tidy(s[i + 1..]) && TrimLeft(s[i..]) == s[i + 1..]
  {
    hide IsSpace;
    TidyCut(s, i);
    TidyEnds(s[i + 1..]);
    hide Tidy;
    assert s[i..][0] == s[i] && s[i..][1..] == s[i + 1..];
    assert TrimLeft(s[i + 1..]) == s[i + 1..];
  }

  /** A text is divided exactly at its sentence ends: every sentence but the last ends like one, and none goes on inside. */
  lemma {:induction false} SentencesAreExact(s: string)
    requires Tidy(s)
    ensures var parts := Sentences(s);
            && (forall k :: 0 <= k < |parts| ==> parts[k] != "" && OneSentence(parts[k]))
            && (forall k :: 0 <= k < |parts| - 1 ==> EndsSentence(parts[k][|parts[k]| - 1]))
    decreases |s|
  {
    hide IsSpace, Tidy, EndsSentence, Sentences;
    var i := FirstBreak(s, 1);
    FirstBreakIsFirst(s, 1);
    SentencesUnfold(s);
    if i < |s| {
      SentencesAreExact(s[i + 1..]);
      PrefixEnds(s, i);
      assert s[..i][i - 1] == s[i - 1];
    } else {
      PrefixEnds(s, |s|);
      NotEmpty(s);
    }
  }

  lemma PrefixEnds(s: string, i: nat)
    requires i <= |s| && forall k :: 0 <= k < i - 1 ==> !EndsAt(s, k)
    ensures OneSentence(s[..i])
    ensures s[..|s|] == s
  {
    hide IsSpace, EndsSentence;
    forall k ensures !EndsAt(s[..i], k) {
      if 0 <= k < i - 1 {
        assert !EndsAt(s, k);
      }
    }
  }

  lemma NotEmpty(s: string)
    requires Tidy(s)
    ensures s != ""
  {
  }

  // ---------- cutting inside a sentence ----------

  /** The cut is as late as it can be: the next word would not have fitted, unless it is cut itself. */
  ghost predicate CutLate(piece: string, rest: string, maxChars: nat) {
    |piece| == maxChars || (rest != "" && |piece| + 1 + WordEnd(rest) >= maxChars)
  }

  lemma NextWordReaches(s: string, cut: nat, end: nat)
    requires Tidy(s) && cut < end < |s| && forall k :: cut < k < end ==> s[k] != ' '
    ensures cut + 1 + WordEnd(s[cut + 1..]) >= end
  {
    hide IsSpace;
    var rest := s[cut + 1..];
    var n := WordEnd(rest);
    if cut + 1 + n < end {
      assert s[cut + 1 + n] == rest[n];
      BlankIsTidyBlank(s, cut + 1 + n);
    }
  }

  lemma BlankCutIsLate(s: string, maxChars: nat)
    requires Tidy(s) && 1 <= maxChars < |s| && IsSpace(s[CutAt(s, maxChars)])
    ensures CutLate(Strip(s[..CutAt(s, maxChars)]), Strip(s[CutAt(s, maxChars)..]), maxChars)
  {
    var cut := CutAt(s, maxChars);
    if cut < maxChars {
      NextWordReaches(s, cut, maxChars);
    }
    hide CutAt, IsSpace, WordEnd;
    TidyCut(s, cut);
    StripTidy(s[..cut]);
    StripSuffix(s, cut);
    NotEmpty(s[cut + 1..]);
    hide Strip, Tidy;
  }

  lemma CutIsLate(s: string, maxChars: nat)
    requires Tidy(s) && 1 <= maxChars < |s|
    ensures CutLate(Strip(s[..CutAt(s, maxChars)]), Strip(s[CutAt(s, maxChars)..]), maxChars)
  {
    hide CutAt, Strip, IsSpace, Tidy;
    if IsSpace(s[CutAt(s, maxChars)]) {
      BlankCutIsLate(s, maxChars);
    } else {
      CutInsideWord(s, maxChars);
    }
  }

  /** Every piece cut off an over-long sentence is as long as the words after it allow. */
  ghost predicate CutsLate(pieces: seq<string>, rest: string, maxChars: nat) {
    && (forall k :: 0 <= k < |pieces| - 1 ==> CutLate(pieces[k], pieces[k + 1], maxChars))
    && (pieces != [] ==> CutLate(pieces[|pieces| - 1], rest, maxChars))
  }

  lemma SameFirstWord(s: string, maxChars: nat)
    requires Tidy(s) && 1 <= maxChars < |s|
    ensures var piece := Strip(s[..CutAt(s, maxChars)]);
            piece != "" && (|piece| == maxChars == WordEnd(piece) || WordEnd(piece) == WordEnd(s))
  {
    var cut := CutAt(s, maxChars);
    if IsSpace(s[cut]) {
      hide CutAt;
      TidyCut(s, cut);
      StripTidy(s[..cut]);
      NotEmpty(s[..cut]);
      TidyEnds(s);
      hide Strip, IsSpace, Tidy;
      var n := WordEnd(s);
      assert n <= cut;
      WordEndIs(s[..cut], n);
    } else {
      CutMidWord(s, maxChars);
      CutInsideWord(s, maxChars);
      WordEndNoSpace(s[..maxChars]);
    }
  }

  lemma {:induction false} HardCutIsLate(s: string, maxChars: nat)
    requires Tidy(s) && 1 <= maxChars
    ensures CutsLate(HardCut(s, maxChars).pieces, HardCut(s, maxChars).rest, maxChars)
    decreases |s|
  {
    hide Strip, CutAt, IsSpace, Tidy, WordEnd;
    if |s| > maxChars {
      var cut := CutAt(s, maxChars);
      var piece, rest := Strip(s[..cut]), Strip(s[cut..]);
      CutStep(s, maxChars);
      CutIsLate(s, maxChars);
      HardCutIsLate(rest, maxChars);
      var c := HardCut(rest, maxChars);
      if |rest| > maxChars {
        SameFirstWord(rest, maxChars);
      }
      CutsLateCons(piece, rest, c.pieces, c.rest, maxChars);
    }
  }

  lemma CutsLateCons(piece: string, rest: string, pieces: seq<string>, last: string, maxChars: nat)
    requires CutLate(piece, rest, maxChars) && CutsLate(pieces, last, maxChars)
    requires if pieces == [] then last == rest
             else pieces[0] != "" && (|pieces[0]| == maxChars == WordEnd(pieces[0]) || WordEnd(pieces[0]) == WordEnd(rest))
    ensures CutsLate([piece] + pieces, last, maxChars)
  {
    hide WordEnd;
    var all := [piece] + pieces;
    assert pieces != [] ==> CutLate(piece, pieces[0], maxChars);
    forall k | 0 <= k < |all| - 1 ensures CutLate(all[k], all[k + 1], maxChars) {
      if k > 0 {
        assert CutLate(pieces[k - 1], pieces[k], maxChars);
      }
    }
  }

  // ---------- evening out the last two pieces ----------

  ghost function Head(parts: seq<string>, k: nat): string
    requires k <= |parts|
  {
    Join(parts[..k])
  }

  ghost function Tail(parts: seq<string>, stub: string, k: nat): string
    requires k <= |parts|
  {
    Join(parts[k..] + [stub])
  }

  lemma HeadGrows(parts: seq<string>, j: nat, k: nat)
    requires 0 < j <= k <= |parts|
    ensures |Head(parts, j)| <= |Head(parts, k)|
  {
    JoinPrefix(parts[..j], parts[j..k]);
    assert parts[..j] + parts[j..k] == parts[..k];
  }

  lemma TailShrinks(parts: seq<string>, stub: string, j: nat, k: nat)
    requires j <= k <= |parts|
    ensures |Tail(parts, stub, k)| <= |Tail(parts, stub, j)|
  {
    if j < k {
      JoinAppend(parts[j..k], parts[k..] + [stub]);
      assert parts[j..k] + (parts[k..] + [stub]) == parts[j..] + [stub];
    }
  }

  /** The donation stops at the last sentence end from which the tail is no stub. */
  lemma {:induction false} DonationPoint(parts: seq<string>, stub: string, j: nat) returns (k: nat)
    requires j <= |parts|
    ensures k <= j && Donate(parts[..j], parts[j..], stub) == Donation(parts[..k], parts[k..])
    ensures k == 0 || |Tail(parts, stub, k)| >= 100
    ensures forall i :: k < i <= j ==> |Tail(parts, stub, i)| < 100
    decreases j
  {
    hide Join;
    if j > 0 && |Tail(parts, stub, j)| < MIN_CHARS {
      assert parts[..j][..j - 1] == parts[..j - 1] && [parts[..j][j - 1]] + parts[j..] == parts[j - 1..];
      k := DonationPoint(parts, stub, j - 1);
    } else {
      k := j;
    }
  }

  /** Cutting here leaves two pieces of at least the floor, the second within the cap. */
  ghost predicate EvenAt(parts: seq<string>, stub: string, k: nat, maxChars: nat) {
    0 < k <= |parts| && |Head(parts, k)| >= 100 && 100 <= |Tail(parts, stub, k)| <= maxChars
  }

  /**
   What becomes of a stub: one piece with its predecessor when both fit; else two
   pieces, neither below the floor, cut at the last sentence end that allows it;
   and only when none does, the two as they were.
   */
  lemma RebalanceIffPossible(previous: string, stub: string, maxChars: nat)
    requires Tidy(previous) && Tidy(stub) && |stub| < 100
    ensures var pair, parts := RebalancedPair(previous, stub, maxChars), Sentences(previous);
            && (|previous| + 1 + |stub| <= maxChars ==> |pair| == 1 && Words(pair[0]) == Words(previous) + Words(stub))
            && (|previous| + 1 + |stub| > maxChars && (exists k :: EvenAt(parts, stub, k, maxChars)) ==>
                  exists k :: LastEvenAt(parts, stub, k, maxChars) && pair == [Head(parts, k), Tail(parts, stub, k)])
            && (|previous| + 1 + |stub| > maxChars && !(exists k :: EvenAt(parts, stub, k, maxChars)) ==>
                  pair == [previous, stub])
  {
    GlueTidy(previous, stub);
    var parts := Sentences(previous);
    var k := PairAtDonationPoint(previous, stub, maxChars);
    hide Join, Words, Tidy, Sentences, RebalancedPair, IsSpace, Glue;
    LastEven(parts, stub, k, maxChars);
  }

  /** The last sentence end that leaves two even pieces. */
  ghost predicate LastEvenAt(parts: seq<string>, stub: string, k: nat, maxChars: nat) {
    EvenAt(parts, stub, k, maxChars) && forall i: nat :: EvenAt(parts, stub, i, maxChars) ==> i <= k
  }

  lemma LastEven(parts: seq<string>, stub: string, k: nat, maxChars: nat)
    requires k <= |parts| && (k == 0 || |Tail(parts, stub, k)| >= 100)
    requires forall i :: k < i <= |parts| ==> |Tail(parts, stub, i)| < 100
    ensures (exists i :: EvenAt(parts, stub, i, maxChars)) <==> LastEvenAt(parts, stub, k, maxChars)
    ensures EvenAt(parts, stub, k, maxChars) <==> LastEvenAt(parts, stub, k, maxChars)
  {
    hide Join;
    forall i: nat | EvenAt(parts, stub, i, maxChars) ensures i <= k && EvenAt(parts, stub, k, maxChars) {
      assert i <= k;
      HeadGrows(parts, i, k);
      TailShrinks(parts, stub, i, k);
    }
  }

  /** The pair that is left, by the point where the donation stops. */
  lemma PairAtDonationPoint(previous: string, stub: string, maxChars: nat) returns (k: nat)
    requires Tidy(previous) && Tidy(stub) && |stub| < 100
    ensures var pair, parts := RebalancedPair(previous, stub, maxChars), Sentences(previous);
            && k <= |parts| && (k == 0 || |Tail(parts, stub, k)| >= 100)
            && (forall i :: k < i <= |parts| ==> |Tail(parts, stub, i)| < 100)
            && (|Glue(previous, stub)| <= maxChars ==> pair == [Glue(previous, stub)])
            && (|Glue(previous, stub)| > maxChars ==>
                  pair == if EvenAt(parts, stub, k, maxChars) then [Head(parts, k), Tail(parts, stub, k)]
                          else [previous, stub])
  {
    hide Join, Strip, Glue, Words, Tidy, Sentences, Donate, IsSpace;
    SentencesTidy(previous);
    var parts := Sentences(previous);
    assert parts[..|parts|] == parts && parts[|parts|..] == [];
    k := DonationPoint(parts, stub, |parts|);
    StrippedParts(parts, stub, k);
    StubIsShort(parts, stub);
  }

  lemma StubIsShort(parts: seq<string>, stub: string)
    ensures Tail(parts, stub, |parts|) == stub && Head(parts, 0) == ""
  {
    assert parts[|parts|..] + [stub] == [stub] && parts[..0] == [];
  }

  lemma StrippedParts(parts: seq<string>, stub: string, k: nat)
    requires k <= |parts| && Tidy(stub) && forall t :: t in parts ==> Tidy(t)
    ensures Strip(Join(parts[..k])) == Head(parts, k) && (Head(parts, k) == "" <==> k == 0)
    ensures Strip(Join(parts[k..] + [stub])) == Tail(parts, stub, k)
  {
    hide Strip, Tidy, Words;
    JoinNonEmptyTidy(parts[k..] + [stub]);
    if k > 0 {
      JoinNonEmptyTidy(parts[..k]);
      NotEmpty(Join(parts[..k]));
    } else {
      StripEmpty();
    }
  }
}
