/**
 What a rendered track says, read off the player blocks: which sentences become
 cues, in which order, at which times, with whose name and which words.
 */
module WebVttTrack {
  import opened Wrappers
  import opened VttParser
  import opened WebVtt
  import Text

  // ---------- words of a cue text ----------

  lemma {:induction false} BlankHasNoWords(s: string)
    requires forall i :: 0 <= i < |s| ==> Text.IsSpace(s[i])
    ensures Text.Words(s) == []
  {
    hide Text.IsSpace;
    if s != "" {
      BlankHasNoWords(s[1..]);
    }
  }

  lemma {:induction false} NoWordsIsBlank(s: string)
    requires Text.Words(s) == []
    ensures forall i :: 0 <= i < |s| ==> Text.IsSpace(s[i])
  {
    hide Text.IsSpace;
    if s != "" {
      NoWordsIsBlank(s[1..]);
      assert s == [s[0]] + s[1..];
    }
  }

  lemma {:induction false} TrimLeftWords(s: string)
    ensures Text.Words(Text.TrimLeft(s)) == Text.Words(s)
  {
    hide Text.IsSpace;
    if s != "" && Text.IsSpace(s[0]) {
      TrimLeftWords(s[1..]);
    }
  }

  lemma {:induction false} TrimRightWords(s: string)
    ensures Text.Words(Text.TrimRight(s)) == Text.Words(s)
  {
    hide Text.IsSpace, Text.Words;
    if s != "" && Text.IsSpace(s[|s| - 1]) {
      var n := |s| - 1;
      TrimRightWords(s[..n]);
      Text.WordsSplit(s, n);
      assert s[n + 1..] == "";
      BlankHasNoWords("");
    }
  }

  lemma StripWords(s: string)
    ensures Text.Words(Text.Strip(s)) == Text.Words(s)
  {
    TrimLeftWords(s);
    TrimRightWords(Text.TrimLeft(s));
  }

  lemma {:induction false} JoinWords(ws: seq<string>)
    ensures Text.Words(Text.Join(ws)) == Text.AllWords(ws)
  {
    if |ws| == 0 {
      BlankHasNoWords("");
    } else if |ws| == 1 {
      Text.AllWordsOne(ws[0]);
      assert ws == [ws[0]];
    } else {
      hide Text.Words;
      JoinWords(ws[1..]);
      Text.WordsJoin2(ws[0], Text.Join(ws[1..]));
    }
  }

  /** The words of these lines, in order, but for lines that are nothing but an arrow. */
  ghost function LineWords(lines: seq<string>): seq<string> {
    if lines == [] then []
    else (if Text.Words(lines[0]) == [ARROW] then [] else Text.Words(lines[0])) + LineWords(lines[1..])
  }

  lemma SameLast(s: string, n: nat)
    requires n <= |s|
    ensures n < |s| ==> s[n..][|s| - n - 1] == s[|s| - 1]
  {
  }

  /** A text with one word and no blank at its end is that word. */
  lemma LoneWord(s: string, w: string)
    requires s != "" && !Text.IsSpace(s[0]) && !Text.IsSpace(s[|s| - 1]) && Text.Words(s) == [w]
    ensures s == w
  {
    hide Text.IsSpace, Text.Words, Text.WordEnd;
    var n := Text.WordEnd(s);
    assert s == s[..n] + s[n..];
    SameLast(s, n);
    Text.WordsHead(s);
    assert Text.Words(s)[1..] == [];
    NoWordsIsBlank(s[n..]);
  }

  lemma ArrowIsItsWord(s: string)
    requires s != "" && !Text.IsSpace(s[0]) && !Text.IsSpace(s[|s| - 1])
    ensures Text.Words(s) == [ARROW] <==> s == ARROW
  {
    hide Text.IsSpace, Text.Words;
    if Text.Words(s) == [ARROW] {
      LoneWord(s, ARROW);
    }
    if s == ARROW {
      ArrowHasNoSpace();
      Text.WordsSingle(s);
    }
  }

  lemma ArrowHasNoSpace()
    ensures forall i :: 0 <= i < |ARROW| ==> !Text.IsSpace(ARROW[i])
  {
  }

  lemma {:induction false} KeptWords(lines: seq<string>)
    ensures Text.AllWords(KeptLines(lines)) == LineWords(lines)
  {
    hide Text.Words, Text.Strip;
    if lines != [] {
      KeptWords(lines[1..]);
      StripWords(lines[0]);
      var line := Text.Strip(lines[0]);
      if line == "" {
        BlankHasNoWords(line);
      } else {
        ArrowIsItsWord(line);
      }
    }
  }

  /** A cue text says the words of its lines, in order; nothing is lost but bare arrows, and an empty one says nothing. */
  lemma CueTextWords(text: string)
    ensures Text.Words(CueText(text)) == LineWords(SplitLines(text))
    ensures CueText(text) == "" <==> LineWords(SplitLines(text)) == []
  {
    hide Text.Words, Text.Strip, Text.Join, KeptLines, SplitLines, LineWords;
    var joined := Text.Join(KeptLines(SplitLines(text)));
    KeptWords(SplitLines(text));
    JoinWords(KeptLines(SplitLines(text)));
    StripWords(joined);
    var told := Text.Strip(joined);
    if told == "" {
      BlankHasNoWords(told);
    } else {
      Text.WordsHead(told);
    }
  }

  lemma BreaksAreBlank(c: char)
    requires IsBreak(c)
    ensures Text.IsSpace(c)
  {
  }

  lemma CutLine(s: string, n: nat)
    requires n < |s| && IsBreak(s[n])
    ensures Text.Words(s) == Text.Words(s[..n]) + Text.Words(s[n + 1..])
  {
    hide Text.Words, Text.IsSpace, IsBreak;
    BreaksAreBlank(s[n]);
    Text.WordsSplit(s, n);
  }

  lemma SkipBreak(s: string)
    requires s != "" && IsBreak(s[0])
    ensures Text.Words(s) == Text.Words(s[1..])
  {
    BreaksAreBlank(s[0]);
  }

  /** How many characters the line break at n takes. */
  ghost function BreakWidth(s: string, n: nat): (w: nat)
    requires n < |s|
    ensures 1 <= w <= |s| - n
  {
    if s[n] == '\r' && n + 1 < |s| && s[n + 1] == '\n' then 2 else 1
  }

  lemma OnlyLine(s: string)
    requires s != "" && LineLength(s) == |s|
    ensures SplitLines(s) == [s]
  {
    hide IsBreak, LineLength;
  }

  lemma LineAndFeed(s: string)
    requires var n := LineLength(s); n + 1 < |s| && s[n] == '\r' && s[n + 1] == '\n'
    ensures SplitLines(s) == [s[..LineLength(s)]] + SplitLines(s[LineLength(s) + 2..])
  {
    hide IsBreak, LineLength;
  }

  lemma LineAndBreak(s: string)
    requires var n := LineLength(s); n < |s| && !(s[n] == '\r' && n + 1 < |s| && s[n + 1] == '\n')
    ensures SplitLines(s) == [s[..LineLength(s)]] + SplitLines(s[LineLength(s) + 1..])
  {
    hide IsBreak, LineLength;
  }

  lemma FirstLineWords(s: string, n: nat)
    requires n < |s| && IsBreak(s[n])
    ensures Text.Words(s) == Text.Words(s[..n]) + Text.Words(s[n + BreakWidth(s, n)..])
  {
    hide Text.Words, IsBreak;
    CutLine(s, n);
    if BreakWidth(s, n) == 2 {
      FeedIsBreak();
      assert s[n + 1..][0] == s[n + 1] && s[n + 1..][1..] == s[n + 2..];
      SkipBreak(s[n + 1..]);
    }
  }

  lemma FeedIsBreak()
    ensures IsBreak('\n')
  {
  }

  lemma MoreWords(line: string, lines: seq<string>)
    ensures Text.AllWords([line] + lines) == Text.Words(line) + Text.AllWords(lines)
  {
    hide Text.Words;
    assert ([line] + lines)[1..] == lines;
  }

  /** The first line ends at n, and the next one starts at m. */
  ghost predicate CutsAt(s: string, n: nat, m: nat) {
    && n < m <= |s| && SplitLines(s) == [s[..n]] + SplitLines(s[m..])
    && Text.Words(s) == Text.Words(s[..n]) + Text.Words(s[m..])
  }

  lemma NextLine(s: string, n: nat)
    requires n == LineLength(s) && n < |s|
    ensures CutsAt(s, n, n + BreakWidth(s, n))
  {
    hide Text.Words, SplitLines, IsBreak, LineLength;
    assert IsBreak(s[n]) by { BreakThere(s); }
    FirstLineWords(s, n);
    if BreakWidth(s, n) == 2 {
      LineAndFeed(s);
    } else {
      LineAndBreak(s);
    }
  }

  lemma BreakThere(s: string)
    ensures LineLength(s) < |s| ==> IsBreak(s[LineLength(s)])
  {
    hide IsBreak;
  }

  lemma NoLines()
    ensures Text.AllWords(SplitLines("")) == Text.Words("")
  {
    BlankHasNoWords("");
  }

  /** Breaking a text into lines loses no word. */
  lemma {:induction false} LinesKeepWords(s: string)
    ensures Text.AllWords(SplitLines(s)) == Text.Words(s)
    decreases |s|
  {
    hide Text.Words, Text.AllWords, SplitLines, IsBreak, LineLength, BreakWidth;
    var n := LineLength(s);
    if s == "" {
      NoLines();
    } else if n == |s| {
      OnlyLine(s);
      Text.AllWordsOne(s);
    } else {
      NextLine(s, n);
      var m := n + BreakWidth(s, n);
      LinesKeepWords(s[m..]);
      MoreWords(s[..n], SplitLines(s[m..]));
    }
  }

  lemma {:induction false} LineWordsAll(lines: seq<string>)
    requires forall l :: l in lines ==> Text.Words(l) != [ARROW]
    ensures LineWords(lines) == Text.AllWords(lines)
  {
    hide Text.Words;
    if lines != [] {
      LineWordsAll(lines[1..]);
    }
  }

  /** Without a line that is a bare arrow, a cue text has exactly the words of its sentence. */
  lemma CueTextIsFaithful(text: string)
    requires forall l :: l in SplitLines(text) ==> Text.Words(l) != [ARROW]
    ensures Text.Words(CueText(text)) == Text.Words(text)
  {
    hide Text.Words, SplitLines, CueText;
    CueTextWords(text);
    LineWordsAll(SplitLines(text));
    LinesKeepWords(text);
  }

  // ---------- names ----------

  /** The visible characters of a name, without angle brackets. */
  ghost function Bare(speaker: string): string {
    if speaker == "" then ""
    else (if Text.IsSpace(speaker[0]) || speaker[0] == '<' || speaker[0] == '>' then "" else [speaker[0]]) + Bare(speaker[1..])
  }

  lemma {:induction false} WithoutConcat(a: string, b: string, c: char)
    ensures Without(a + b, c) == Without(a, c) + Without(b, c)
  {
    if a == "" {
      assert a + b == b;
    } else {
      WithoutConcat(a[1..], b, c);
      assert (a + b)[1..] == a[1..] + b && (a + b)[0] == a[0];
    }
  }

  lemma {:induction false} NonSpaceWithout(s: string, c: char)
    requires !Text.IsSpace(c)
    ensures Text.NonSpace(Without(s, c)) == Without(Text.NonSpace(s), c)
  {
    hide Text.IsSpace;
    if s != "" {
      NonSpaceWithout(s[1..], c);
      WithoutConcat(if Text.IsSpace(s[0]) then "" else [s[0]], Text.NonSpace(s[1..]), c);
    }
  }

  lemma {:induction false} BareIs(s: string)
    ensures Without(Without(Text.NonSpace(s), '>'), '<') == Bare(s)
  {
    if s != "" {
      BareIs(s[1..]);
      var head := if Text.IsSpace(s[0]) then "" else [s[0]];
      hide Text.IsSpace;
      WithoutConcat(head, Text.NonSpace(s[1..]), '>');
      WithoutConcat(Without(head, '>'), Without(Text.NonSpace(s[1..]), '>'), '<');
    }
  }

  lemma NonSpaceStrip(s: string)
    ensures Text.NonSpace(Text.Strip(s)) == Text.NonSpace(s)
  {
    StripWords(s);
    Text.ConcatWords(s);
    Text.ConcatWords(Text.Strip(s));
  }

  lemma BracketsAreVisible()
    ensures !Text.IsSpace('<') && !Text.IsSpace('>')
  {
  }

  lemma {:induction false} WithoutNothing(s: string, c: char)
    requires c !in s
    ensures Without(s, c) == s
  {
    if s != "" {
      WithoutNothing(s[1..], c);
    }
  }

  lemma {:induction false} WordsChars(s: string, w: string, c: char)
    requires w in Text.Words(s) && c in w
    ensures c in s
    decreases |s|
  {
    if s != "" {
      if Text.IsSpace(s[0]) {
        WordsChars(s[1..], w, c);
      } else {
        var n := Text.WordEnd(s);
        if w != s[..n] {
          WordsChars(s[n..], w, c);
        }
      }
    }
  }

  lemma {:induction false} JoinHasChars(ws: seq<string>, c: char)
    requires c in Text.Join(ws) && c != ' '
    ensures exists w :: w in ws && c in w
  {
    if |ws| > 1 && c !in ws[0] {
      assert c in Text.Join(ws[1..]);
      JoinHasChars(ws[1..], c);
    }
  }

  lemma NormalizedLacks(s: string, c: char)
    requires c !in s && c != ' '
    ensures c !in Text.Normalize(s)
  {
    if c in Text.Normalize(s) {
      JoinHasChars(Text.Words(s), c);
      var w :| w in Text.Words(s) && c in w;
      WordsChars(s, w, c);
    }
  }

  /** The name of a speaker as shown: its visible characters in order, brackets left out, no blank at either end. */
  ghost predicate Names(name: string, speaker: string) {
    && Text.NonSpace(name) == Bare(speaker)
    && (name != "" ==> !Text.IsSpace(name[0]) && !Text.IsSpace(name[|name| - 1]))
    && ('<' !in speaker && '>' !in speaker ==> Text.Words(name) == Text.Words(speaker))
  }

  lemma VoiceNameNames(speaker: string)
    ensures Names(VoiceName(speaker), speaker)
  {
    hide Text.IsSpace, Text.Words, Text.Strip, Text.NonSpace, Without, Text.Join;
    var flat := Text.Normalize(speaker);
    var name := Without(Without(flat, '>'), '<');
    assert flat == Text.Join(Text.Words(speaker));
    BracketsAreVisible();
    Text.NormalizeTidy(speaker);
    Text.ConcatWords(speaker);
    Text.ConcatWords(flat);
    NonSpaceWithout(flat, '>');
    NonSpaceWithout(Without(flat, '>'), '<');
    BareIs(speaker);
    NonSpaceStrip(name);
    if '<' !in speaker && '>' !in speaker {
      NormalizedLacks(speaker, '<');
      NormalizedLacks(speaker, '>');
      WithoutNothing(flat, '>');
      WithoutNothing(flat, '<');
      StripWords(flat);
    }
  }

  // ---------- the cues of a track ----------

  /** The sentence has both times and a word to show. */
  ghost predicate Speaks(s: Option<Sentence>) {
    s.Some? && s.value.start.Some? && s.value.end.Some? && LineWords(SplitLines(s.value.text)) != []
  }

  /** The cue shows this sentence: its times, none below zero, and its words, behind the name if there is one. */
  ghost predicate Shows(cue: Cue, speaker: string, s: Option<Sentence>) {
    && Speaks(s)
    && cue.start == (if s.value.start.value < 0 then 0 else s.value.start.value)
    && cue.end == (if s.value.end.value < 0 then 0 else s.value.end.value)
    && exists name, text :: Names(name, speaker) && Text.Words(text) == LineWords(SplitLines(s.value.text))
         && cue.payload == if name == "" then text else "<v " + (name + (">" + text))
  }

  lemma CueShows(speaker: string, s: Option<Sentence>)
    ensures SentenceCue(VoiceName(speaker), s).Some? <==> Speaks(s)
    ensures Speaks(s) ==> Shows(SentenceCue(VoiceName(speaker), s).value, speaker, s)
  {
    hide VoiceName, CueText, SplitLines, LineWords, Names, Text.Words;
    if s.Some? {
      CueTextWords(s.value.text);
      VoiceNameNames(speaker);
    }
  }

  ghost predicate RisingPositions(order: seq<nat>) {
    forall j, k :: 0 <= j < k < |order| ==> order[j] < order[k]
  }

  /** These sentences of a block, and no others, speak, and the cues show them in order. */
  ghost predicate BlockShown(cues: seq<Cue>, speaker: string, sentences: seq<Option<Sentence>>, order: seq<nat>) {
    && |cues| == |order| && RisingPositions(order)
    && (forall k :: 0 <= k < |order| ==> order[k] < |sentences| && Shows(cues[k], speaker, sentences[order[k]]))
    && forall i :: 0 <= i < |sentences| && Speaks(sentences[i]) ==> i in order
  }

  lemma BlockShownMore(cues: seq<Cue>, speaker: string, sentences: seq<Option<Sentence>>, order: seq<nat>,
                       s: Option<Sentence>, cue: Cue)
    requires BlockShown(cues, speaker, sentences, order)
    ensures !Speaks(s) ==> BlockShown(cues + [], speaker, sentences + [s], order)
    ensures Shows(cue, speaker, s) ==> BlockShown(cues + [cue], speaker, sentences + [s], order + [|sentences|])
  {
    hide Speaks, Shows;
    var more := order + [|sentences|];
    assert more[|order|] == |sentences|;
    assert forall i :: i in order ==> i in more;
  }

  lemma BlockCuesMore(speaker: string, front: seq<Option<Sentence>>, s: Option<Sentence>)
    ensures var cue := SentenceCue(speaker, s);
            BlockCues(speaker, front + [s]) == BlockCues(speaker, front) + (if cue.Some? then [cue.value] else [])
  {
    hide SentenceCue;
    var all := front + [s];
    assert all[..|all| - 1] == front;
  }

  lemma NothingShown(speaker: string)
    ensures BlockShown(BlockCues(VoiceName(speaker), []), speaker, [], [])
  {
  }

  lemma {:induction false} BlockCuesShow(speaker: string, sentences: seq<Option<Sentence>>) returns (order: seq<nat>)
    ensures BlockShown(BlockCues(VoiceName(speaker), sentences), speaker, sentences, order)
    decreases |sentences|
  {
    hide BlockShown, BlockCues, Speaks, Shows, SentenceCue, VoiceName;
    if sentences == [] {
      NothingShown(speaker);
      order := [];
    } else {
      var n := |sentences| - 1;
      var front, last := sentences[..n], sentences[n];
      assert sentences == front + [last];
      var before := BlockCuesShow(speaker, front);
      CueShows(speaker, last);
      BlockCuesMore(VoiceName(speaker), front, last);
      var cues := BlockCues(VoiceName(speaker), front);
      if Speaks(last) {
        BlockShownMore(cues, speaker, front, before, last, SentenceCue(VoiceName(speaker), last).value);
        order := before + [n];
      } else {
        BlockShownMore(cues, speaker, front, before, last, Cue(0, 0, ""));
        order := before;
      }
    }
  }

  /** A sentence of a transcript by block and place. */
  datatype Place = Place(block: nat, at: nat)

  ghost predicate Earlier(a: Place, b: Place) {
    a.block < b.block || (a.block == b.block && a.at < b.at)
  }

  ghost predicate SpeaksAt(blocks: seq<Option<Block>>, p: Place) {
    && p.block < |blocks| && blocks[p.block].Some? && p.at < |blocks[p.block].value.sentences|
    && Speaks(blocks[p.block].value.sentences[p.at])
  }

  ghost predicate ShowsAt(cue: Cue, blocks: seq<Option<Block>>, p: Place) {
    && p.block < |blocks| && blocks[p.block].Some? && p.at < |blocks[p.block].value.sentences|
    && Shows(cue, blocks[p.block].value.speaker, blocks[p.block].value.sentences[p.at])
  }

  /** The cues show, in order and each once, the sentences that speak, and no others. */
  ghost predicate Shown(cues: seq<Cue>, blocks: seq<Option<Block>>, order: seq<Place>) {
    && |cues| == |order|
    && (forall j, k :: 0 <= j < k < |order| ==> Earlier(order[j], order[k]))
    && (forall k :: 0 <= k < |order| ==> ShowsAt(cues[k], blocks, order[k]))
    && forall p :: SpeaksAt(blocks, p) ==> p in order
  }

  ghost function InBlock(n: nat, order: seq<nat>): (r: seq<Place>)
    ensures |r| == |order| && forall k :: 0 <= k < |r| ==> r[k] == Place(n, order[k])
  {
    seq(|order|, k requires 0 <= k < |order| => Place(n, order[k]))
  }

  lemma ShownSkip(cues: seq<Cue>, blocks: seq<Option<Block>>, order: seq<Place>)
    requires Shown(cues, blocks, order)
    ensures Shown(cues + [], blocks + [None], order)
  {
    hide Speaks, Shows;
    forall p | SpeaksAt(blocks + [None], p) ensures p in order {
      assert SpeaksAt(blocks, p);
    }
  }

  lemma PlacesRise(blocks: seq<Option<Block>>, order: seq<Place>, cues: seq<Cue>, inner: seq<nat>)
    requires Shown(cues, blocks, order) && RisingPositions(inner)
    ensures var all := order + InBlock(|blocks|, inner);
            forall j, k :: 0 <= j < k < |all| ==> Earlier(all[j], all[k])
  {
    hide Speaks, Shows;
    var all := order + InBlock(|blocks|, inner);
    forall j, k | 0 <= j < k < |all| ensures Earlier(all[j], all[k]) {
      if j < |order| {
        assert ShowsAt(cues[j], blocks, order[j]);
      }
    }
  }

  lemma ShownMore(cues: seq<Cue>, blocks: seq<Option<Block>>, order: seq<Place>, block: Block, more: seq<Cue>, inner: seq<nat>)
    requires Shown(cues, blocks, order) && BlockShown(more, block.speaker, block.sentences, inner)
    ensures Shown(cues + more, blocks + [Some(block)], order + InBlock(|blocks|, inner))
  {
    PlacesRise(blocks, order, cues, inner);
    hide Speaks, Shows, Earlier, RisingPositions;
    var all, longer := order + InBlock(|blocks|, inner), blocks + [Some(block)];
    forall k | 0 <= k < |all| ensures ShowsAt((cues + more)[k], longer, all[k]) {
      if k < |order| {
        assert ShowsAt(cues[k], blocks, order[k]);
      }
    }
    forall p | SpeaksAt(longer, p) ensures p in all {
      if p.block < |blocks| {
        assert SpeaksAt(blocks, p);
      } else {
        assert p.at in inner;
        var k :| 0 <= k < |inner| && inner[k] == p.at;
        assert all[|order| + k] == p;
      }
    }
  }

  lemma DigitsOfSmall(n: nat)
    requires n < 1000
    ensures n < 10 ==> Digits(n) == ['0' + n as char]
    ensures 100 <= n ==> Digits(n) == ['0' + (n / 100) as char, '0' + (n / 10 % 10) as char, '0' + (n % 10) as char]
  {
    if n >= 100 {
      assert Digits(n / 100) == ['0' + (n / 100) as char];
      assert Digits(n / 10) == Digits(n / 100) + ['0' + (n / 10 % 10) as char];
    }
  }

  lemma PaddedVectors()
    ensures Padded(0, 2) == "00" && Padded(1, 2) == "01" && Padded(2, 2) == "02"
    ensures Padded(0, 3) == "000" && Padded(500, 3) == "500"
  {
    DigitsOfSmall(0);
    DigitsOfSmall(1);
    DigitsOfSmall(2);
    DigitsOfSmall(500);
    assert Zeros(1) == "0" && Zeros(2) == "00";
  }

  lemma TimestampVectors()
    ensures FormatTimestamp(1000) == "00:00:01.000" && FormatTimestamp(2500) == "00:00:02.500"
  {
    PaddedVectors();
    hide Padded;
  }

  lemma {:induction false} JoinBlankMore(parts: seq<string>, part: string)
    requires parts != []
    ensures JoinBlank(parts + [part]) == JoinBlank(parts) + "\n\n" + part
  {
    if |parts| > 1 {
      JoinBlankMore(parts[1..], part);
      assert (parts + [part])[1..] == parts[1..] + [part];
    } else {
      assert (parts + [part])[1..] == [part];
    }
  }

  lemma HeaderOnly()
    ensures Track([]) == "WEBVTT\n" && Parts([]) == ["WEBVTT"]
  {
    NoParts();
  }

  /** How a track looks, to the character: the header line, and behind a blank line each cue's times and payload. */
  lemma TrackLooks(cues: seq<Cue>, cue: Cue)
    ensures Track([]) == "WEBVTT\n"
    ensures Track(cues + [cue]) == Track(cues) + "\n" + FormatTimestamp(cue.start) + " --> " + FormatTimestamp(cue.end)
                                   + "\n" + cue.payload + "\n"
  {
    HeaderOnly();
    hide FormatTimestamp;
    PartsAppend(cues, cue);
    assert Parts(cues) != [];
    JoinBlankMore(Parts(cues), CueBlock(cue));
    hide Parts, JoinBlank;
    assert "\n" + "\n" == "\n\n";
  }

  /**
   The cues of a track, read off the blocks: the sentences with both times and a
   word to show, each once, in the order of the transcript; each at its times,
   with its words, behind the name of its block.
   */
  lemma {:induction false} TrackShowsTheTranscript(blocks: seq<Option<Block>>) returns (order: seq<Place>)
    ensures Shown(Emitted(blocks), blocks, order)
    decreases |blocks|
  {
    if blocks == [] {
      order := [];
    } else {
      var n := |blocks| - 1;
      var front, last := blocks[..n], blocks[n];
      var before := TrackShowsTheTranscript(front);
      hide Shown, BlockCues, VoiceName;
      assert blocks == front + [last];
      if last.Some? {
        var inner := BlockCuesShow(last.value.speaker, last.value.sentences);
        ShownMore(Emitted(front), front, before, last.value,
                  BlockCues(VoiceName(last.value.speaker), last.value.sentences), inner);
        order := before + InBlock(n, inner);
      } else {
        ShownSkip(Emitted(front), front, before);
        order := before;
      }
    }
  }
}
