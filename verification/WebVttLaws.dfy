/** Which rendered tracks the W3C parser reads back as the cues that were written. */
module WebVttLaws {
  import opened Wrappers
  import opened VttParser
  import opened WebVtt
  import Text

  // ---------- timestamps ----------

  ghost predicate AllDigits(s: string) {
    forall i :: 0 <= i < |s| ==> IsDigit(s[i])
  }

  lemma {:induction false} DigitsRead(n: nat)
    ensures AllDigits(Digits(n)) && Value(Digits(n)) == n && Digits(n) != ""
    ensures n < 10 ==> |Digits(n)| == 1
    ensures n < 100 ==> |Digits(n)| <= 2
    ensures n < 1000 ==> |Digits(n)| <= 3
    decreases n
  {
    var s := Digits(n);
    if n >= 10 {
      DigitsRead(n / 10);
      assert s[..|s| - 1] == Digits(n / 10);
    } else {
      assert s[..0] == "";
    }
  }

  lemma {:induction false} ZerosRead(n: nat, s: string)
    requires AllDigits(s)
    ensures |Zeros(n)| == n && AllDigits(Zeros(n) + s) && Value(Zeros(n) + s) == Value(s)
  {
    if n == 0 {
      assert Zeros(0) + s == s;
    } else {
      LeadingZero(s);
      ZerosRead(n - 1, "0" + s);
      assert Zeros(n) + s == Zeros(n - 1) + ("0" + s);
    }
  }

  lemma {:induction false} LeadingZero(s: string)
    requires AllDigits(s)
    ensures AllDigits("0" + s) && Value("0" + s) == Value(s)
    decreases |s|
  {
    var t := "0" + s;
    if s == "" {
      assert t[..0] == "";
    } else {
      LeadingZero(s[..|s| - 1]);
      assert t[..|t| - 1] == "0" + s[..|s| - 1];
    }
  }

  lemma PaddedReads(n: nat, width: nat)
    ensures AllDigits(Padded(n, width)) && Value(Padded(n, width)) == n
    ensures |Padded(n, width)| >= width && Padded(n, width) != ""
    ensures (n < 100 && width == 2) || (n < 1000 && width == 3) ==> |Padded(n, width)| == width
  {
    hide Digits, Zeros, Value;
    DigitsRead(n);
    ZerosRead(if |Digits(n)| < width then width - |Digits(n)| else 0, Digits(n));
  }

  /** The text cannot continue a number. */
  ghost predicate NoDigit(rest: string) {
    rest == "" || !IsDigit(rest[0])
  }

  lemma {:induction false} TakeDigitsOf(d: string, rest: string)
    requires AllDigits(d) && NoDigit(rest)
    ensures TakeDigits(d + rest) == (d, rest)
  {
    if d == "" {
      assert d + rest == rest;
    } else {
      TakeDigitsOf(d[1..], rest);
      assert (d + rest)[1..] == d[1..] + rest;
      assert [d[0]] + d[1..] == d;
    }
  }

  lemma UnitOf(mark: char, n: nat, width: nat, rest: string)
    requires NoDigit(rest) && ((n < 100 && width == 2) || (n < 1000 && width == 3))
    ensures Unit([mark] + (Padded(n, width) + rest), mark, width) == Some((n, rest))
  {
    hide Padded, TakeDigits;
    PaddedReads(n, width);
    TakeDigitsOf(Padded(n, width), rest);
    assert ([mark] + (Padded(n, width) + rest))[1..] == Padded(n, width) + rest;
  }

  /** A formatted time followed by `rest`, unit by unit. */
  function Spelled(hours: nat, minutes: nat, secs: nat, ms: nat, rest: string): string {
    Padded(hours, 2) + ([':'] + (Padded(minutes, 2) + ([':'] + (Padded(secs, 2) + (['.'] + (Padded(ms, 3) + rest))))))
  }

  lemma SpelledReads(hours: nat, minutes: nat, secs: nat, ms: nat, rest: string)
    requires minutes < 60 && secs < 60 && ms < 1000 && NoDigit(rest)
    ensures Timestamp(Spelled(hours, minutes, secs, ms, rest)) == Some((((hours * 60 + minutes) * 60 + secs) * 1000 + ms, rest))
  {
    hide Padded, TakeDigits, Unit;
    var fourth := ['.'] + (Padded(ms, 3) + rest);
    var third := [':'] + (Padded(secs, 2) + fourth);
    var second := [':'] + (Padded(minutes, 2) + third);
    PaddedReads(hours, 2);
    TakeDigitsOf(Padded(hours, 2), second);
    UnitOf(':', minutes, 2, third);
    UnitOf(':', secs, 2, fourth);
    UnitOf('.', ms, 3, rest);
    assert third[0] == ':';
  }

  lemma FormatIsSpelled(millis: int, rest: string)
    ensures var t := Clamp(millis);
            FormatTimestamp(millis) + rest
                == Spelled(t / 3600000, t % 3600000 / 60000, t % 3600000 % 60000 / 1000, t % 3600000 % 60000 % 1000, rest)
  {
    hide Padded;
    var t := Clamp(millis);
    var h, m := Padded(t / 3600000, 2), Padded(t % 3600000 / 60000, 2);
    var s, f := Padded(t % 3600000 % 60000 / 1000, 2), Padded(t % 3600000 % 60000 % 1000, 3);
    SpellOut(h, m, s, f, rest);
  }

  lemma SpellOut(h: string, m: string, s: string, f: string, rest: string)
    ensures h + ":" + m + ":" + s + "." + f + rest == h + ([':'] + (m + ([':'] + (s + (['.'] + (f + rest))))))
  {
  }

  /** A timestamp has minutes and seconds below 60 and reads back as the same milliseconds, negative ones as zero. */
  lemma TimestampRoundTrip(millis: int, rest: string)
    requires NoDigit(rest)
    ensures Timestamp(FormatTimestamp(millis) + rest) == Some((Clamp(millis), rest))
  {
    hide Timestamp, FormatTimestamp, Spelled;
    var t := Clamp(millis);
    FormatIsSpelled(millis, rest);
    SpelledReads(t / 3600000, t % 3600000 / 60000, t % 3600000 % 60000 / 1000, t % 3600000 % 60000 % 1000, rest);
  }

  /** The characters of a timestamp: digits, colons and a full stop, a digit first. */
  lemma TimestampChars(millis: int)
    ensures FormatTimestamp(millis) != "" && IsDigit(FormatTimestamp(millis)[0])
    ensures forall c :: c in FormatTimestamp(millis) ==> IsDigit(c) || c == ':' || c == '.'
  {
    hide Padded;
    var t := Clamp(millis);
    PaddedReads(t / 3600000, 2);
    PaddedReads(t % 3600000 / 60000, 2);
    PaddedReads(t % 3600000 % 60000 / 1000, 2);
    PaddedReads(t % 3600000 % 60000 % 1000, 3);
  }

  // ---------- timing lines ----------

  function TimingLine(cue: Cue): string {
    FormatTimestamp(cue.start) + " --> " + FormatTimestamp(cue.end)
  }

  lemma {:induction false} ContainsMiddle(a: string, p: string, b: string)
    ensures Contains(a + (p + b), p)
  {
    if a == "" {
      assert a + (p + b) == p + b;
    } else {
      ContainsMiddle(a[1..], p, b);
      assert (a + (p + b))[1..] == a[1..] + (p + b);
    }
  }

  lemma TimingLineChars(cue: Cue)
    ensures TimingLine(cue) != "" && Contains(TimingLine(cue), ARROW)
    ensures forall c :: c in TimingLine(cue) ==> c != '\0' && c != '\n' && c != '\r'
  {
    hide FormatTimestamp, Contains;
    var first, last := FormatTimestamp(cue.start), FormatTimestamp(cue.end);
    TimestampChars(cue.start);
    TimestampChars(cue.end);
    assert TimingLine(cue) == (first + " ") + (ARROW + (" " + last));
    ContainsMiddle(first + " ", ARROW, " " + last);
  }

  lemma TimingsOf(first: string, last: string, start: int, end: int)
    requires first != "" && IsDigit(first[0]) && last != "" && IsDigit(last[0])
    requires Timestamp(first + (" " + (ARROW + (" " + last)))) == Some((start, " " + (ARROW + (" " + last))))
    requires Timestamp(last).Some? && Timestamp(last).value.0 == end
    ensures Timings(first + (" " + (ARROW + (" " + last)))) == Some((start, end))
  {
    hide Timestamp;
    var arrow := ARROW + (" " + last);
    var line := first + (" " + arrow);
    assert SkipSpace(line) == line;
    assert (" " + arrow)[1..] == arrow && SkipSpace(" " + arrow) == arrow;
    assert arrow[..3] == ARROW && arrow[3..] == " " + last;
    assert (" " + last)[1..] == last && SkipSpace(" " + last) == last;
  }

  lemma TimingLineReads(cue: Cue)
    ensures Timings(TimingLine(cue)) == Some((Clamp(cue.start), Clamp(cue.end)))
  {
    hide Timestamp, FormatTimestamp, Timings;
    var first, last := FormatTimestamp(cue.start), FormatTimestamp(cue.end);
    TimestampChars(cue.start);
    TimestampChars(cue.end);
    var arrow := ARROW + (" " + last);
    assert TimingLine(cue) == first + (" " + arrow);
    TimestampRoundTrip(cue.start, " " + arrow);
    TimestampRoundTrip(cue.end, "");
    assert last + "" == last;
    TimingsOf(first, last, Clamp(cue.start), Clamp(cue.end));
  }

  // ---------- the track as lines ----------

  /** The payload has no line break. */
  ghost predicate OneLine(s: string) {
    forall c :: c in s ==> c != '\n' && c != '\r'
  }

  /** What the parser makes of NUL characters. */
  function Clean(s: string): string {
    if s == "" then "" else [if s[0] == '\0' then '\U{FFFD}' else s[0]] + Clean(s[1..])
  }

  function CleanAll(cues: seq<Cue>): seq<Cue> {
    if cues == [] then [] else [cues[0].(payload := Clean(cues[0].payload))] + CleanAll(cues[1..])
  }

  /** The track after its first line. */
  function Tail(cues: seq<Cue>): string {
    if cues == [] then "\n" else "\n" + ("" + ("\n" + (TimingLine(cues[0]) + ("\n" + (cues[0].payload + Tail(cues[1..]))))))
  }

  /** The lines of the track after its first line. */
  function Doc(cues: seq<Cue>): seq<string> {
    if cues == [] then [""] else ["", TimingLine(cues[0]), cues[0].payload] + Doc(cues[1..])
  }

  lemma {:induction false} JoinIsTail(head: string, cues: seq<Cue>)
    ensures JoinBlank([head] + Parts(cues)[1..]) + "\n" == head + Tail(cues)
    decreases |cues|
  {
    hide FormatTimestamp;
    var parts := [head] + Parts(cues)[1..];
    if cues == [] {
      assert parts == [head];
    } else {
      var block := CueBlock(cues[0]);
      JoinIsTail(block, cues[1..]);
      assert parts[1..] == [block] + Parts(cues[1..])[1..];
      var rest := Tail(cues[1..]);
      var timing, payload := TimingLine(cues[0]), cues[0].payload;
      assert block == timing + ("\n" + payload);
      hide TimingLine, Parts, CueBlock, JoinBlank;
      TailSpelled(head, timing, payload, rest);
      var joined := JoinBlank(parts[1..]);
      assert head + "\n\n" + joined + "\n" == (head + "\n\n") + (joined + "\n");
    }
  }

  lemma TailSpelled(head: string, timing: string, payload: string, rest: string)
    ensures (head + "\n\n") + (timing + ("\n" + payload) + rest)
            == head + ("\n" + ("" + ("\n" + (timing + ("\n" + (payload + rest))))))
  {
  }

  lemma TrackIsTail(cues: seq<Cue>)
    ensures Track(cues) == "WEBVTT" + Tail(cues)
  {
    assert ["WEBVTT"] + Parts(cues)[1..] == Parts(cues);
    JoinIsTail("WEBVTT", cues);
  }

  lemma {:induction false} LinesFirst(a: string, b: string)
    requires '\n' !in a
    ensures Lines(a + ("\n" + b)) == [a] + Lines(b)
  {
    if a == "" {
      assert a + ("\n" + b) == "\n" + b && ("\n" + b)[1..] == b;
    } else {
      LinesFirst(a[1..], b);
      assert (a + ("\n" + b))[1..] == a[1..] + ("\n" + b);
      assert ([a[1..]] + Lines(b))[1..] == Lines(b);
      assert [a[0]] + a[1..] == a;
    }
  }

  lemma LinesLast(a: string)
    requires '\n' !in a
    ensures Lines(a + "\n") == [a, ""]
  {
    LinesFirst(a, "");
    assert a + ("\n" + "") == a + "\n";
  }

  lemma ThreeLines(head: string, timing: string, rest: string)
    requires '\n' !in head && '\n' !in timing
    ensures Lines(head + ("\n" + ("" + ("\n" + (timing + ("\n" + rest)))))) == [head, "", timing] + Lines(rest)
  {
    hide Lines;
    LinesFirst(timing, rest);
    LinesFirst("", timing + ("\n" + rest));
    LinesFirst(head, "" + ("\n" + (timing + ("\n" + rest))));
  }

  lemma {:induction false} TailLines(head: string, cues: seq<Cue>)
    requires '\n' !in head && forall i :: 0 <= i < |cues| ==> OneLine(cues[i].payload)
    ensures Lines(head + Tail(cues)) == [head] + Doc(cues)
    decreases |cues|
  {
    hide Lines, TimingLine;
    if cues == [] {
      LinesLast(head);
    } else {
      var timing, payload, rest := TimingLine(cues[0]), cues[0].payload, Tail(cues[1..]);
      TimingLineChars(cues[0]);
      assert OneLine(cues[0].payload);
      assert forall i :: 0 <= i < |cues[1..]| ==> cues[1..][i] == cues[i + 1];
      TailLines(payload, cues[1..]);
      ThreeLines(head, timing, payload + rest);
      hide Tail, Doc;
      assert [head, "", timing] + ([payload] + Doc(cues[1..])) == [head] + (["", timing, payload] + Doc(cues[1..]));
    }
  }

  lemma {:induction false} CleanAppend(a: string, b: string)
    ensures Clean(a + b) == Clean(a) + Clean(b)
  {
    if a == "" {
      assert a + b == b;
    } else {
      CleanAppend(a[1..], b);
      assert (a + b)[1..] == a[1..] + b;
    }
  }

  lemma {:induction false} CleanIsIdentity(s: string)
    ensures Clean(s) == s <==> '\0' !in s
    ensures forall c :: c in Clean(s) ==> c in s || c == '\U{FFFD}'
    ensures s != "" ==> Clean(s) != ""
    decreases |s|
  {
    if s != "" {
      CleanIsIdentity(s[1..]);
      assert s == [s[0]] + s[1..];
    }
  }

  lemma {:induction false} PreprocessCleans(s: string)
    requires '\r' !in s
    ensures Preprocess(s) == Clean(s)
  {
    if s != "" {
      PreprocessCleans(s[1..]);
    }
  }

  lemma {:induction false} CleanTail(head: string, cues: seq<Cue>)
    requires OneLine(head) && forall i :: 0 <= i < |cues| ==> OneLine(cues[i].payload)
    ensures Clean(head + Tail(cues)) == Clean(head) + Tail(CleanAll(cues))
    ensures '\r' !in head + Tail(cues)
    decreases |cues|
  {
    hide TimingLine, Clean;
    CleanAppend(head, Tail(cues));
    if cues == [] {
      CleanIsIdentity("\n");
    } else {
      var timing, payload, rest := TimingLine(cues[0]), cues[0].payload, Tail(cues[1..]);
      TimingLineChars(cues[0]);
      CleanIsIdentity(timing);
      CleanIsIdentity("\n");
      CleanIsIdentity("");
      CleanTail(payload, cues[1..]);
      CleanAppend("\n", payload + rest);
      CleanAppend(timing, "\n" + (payload + rest));
      CleanAppend("\n", timing + ("\n" + (payload + rest)));
      CleanAppend("", "\n" + (timing + ("\n" + (payload + rest))));
      CleanAppend("\n", "" + ("\n" + (timing + ("\n" + (payload + rest)))));
      SameTiming(cues[0], Clean(payload));
    }
  }

  lemma SameTiming(cue: Cue, payload: string)
    ensures TimingLine(cue.(payload := payload)) == TimingLine(cue)
  {
  }

  // ---------- reading the lines back ----------

  /** What a rendered cue must be for the format to hold it. */
  ghost predicate WellFormed(cue: Cue) {
    cue.start >= 0 && cue.end >= 0 && cue.payload != "" && OneLine(cue.payload)
  }

  /** The payload survives the format: no arrow, no NUL. */
  predicate Safe(payload: string) {
    !Contains(payload, ARROW) && '\0' !in payload
  }

  lemma EmptyHasNoArrow()
    ensures !Contains("", ARROW)
  {
  }

  /** The lines of one cue and of what follows: the payload is kept unless it holds an arrow. */
  lemma CueReads(cue: Cue, rest: seq<string>)
    requires cue.payload != "" && rest != [] && rest[0] == ""
    ensures var lines := ["", TimingLine(cue), cue.payload] + rest;
            var (start, end) := (Clamp(cue.start), Clamp(cue.end));
            if Contains(cue.payload, ARROW)
            then Cues(lines) == [Cue(start, end, "")] + Cues([cue.payload] + rest)
            else Cues(lines) == [Cue(start, end, cue.payload)] + Cues(rest)
  {
    hide TimingLine, Timings, Contains, Cues;
    var timing, payload := TimingLine(cue), cue.payload;
    var lines := ["", timing, payload] + rest;
    TimingLineReads(cue);
    TimingLineChars(cue);
    EmptyHasNoArrow();
    assert timing != "";
    assert lines[1..] == [timing, payload] + rest;
    SkipEmpty(lines);
    var l1, l2 := [timing, payload] + rest, [payload] + rest;
    assert l1[1..] == l2 && l2[1..] == rest;
    var times := Some((Clamp(cue.start), Clamp(cue.end)));
    assert CollectBlock(l1, 0, "", false, None) == CollectBlock(l2, 1, "", true, times);
    if Contains(payload, ARROW) {
      assert CollectBlock(l2, 1, "", true, times) == (Finish(times, ""), l2);
    } else {
      assert CollectBlock(l2, 1, "", true, times) == CollectBlock(rest, 2, payload, true, times)
          == (Finish(times, payload), rest[1..]);
      SkipEmpty(rest);
    }
    FirstCue(l1);
  }

  lemma SkipEmpty(lines: seq<string>)
    requires lines != [] && lines[0] == ""
    ensures Cues(lines) == Cues(lines[1..])
  {
  }

  lemma FirstCue(lines: seq<string>)
    requires lines != [] && lines[0] != ""
    ensures var (cue, rest) := CollectBlock(lines, 0, "", false, None);
            Cues(lines) == if cue.Some? then [cue.value] + Cues(rest) else Cues(rest)
  {
  }

  /** The lines read back as the cues exactly when every payload is safe. */
  lemma {:induction false} DocReadsBack(cues: seq<Cue>)
    requires forall i :: 0 <= i < |cues| ==> WellFormed(cues[i])
    ensures Cues(Doc(CleanAll(cues))) == cues <==> forall i :: 0 <= i < |cues| ==> Safe(cues[i].payload)
    decreases |cues|
  {
    hide TimingLine, Contains, Clean, Cues;
    if cues == [] {
      NoCues();
    } else {
      var cue, rest := cues[0], cues[1..];
      assert WellFormed(cue);
      var clean := cue.(payload := Clean(cue.payload));
      var tail := Doc(CleanAll(rest));
      DocReadsBack(rest);
      CleanIsIdentity(cue.payload);
      CleanKeepsArrows(cue.payload);
      assert CleanAll(cues) == [clean] + CleanAll(rest) && ([clean] + CleanAll(rest))[1..] == CleanAll(rest);
      assert Doc(CleanAll(cues)) == ["", TimingLine(clean), clean.payload] + tail;
      CueReads(clean, tail);
      var read := Cues(Doc(CleanAll(cues)));
      assert cues == [cue] + rest;
      if Contains(clean.payload, ARROW) {
        assert read[0].payload == "" && cues[0].payload != "";
        assert !Safe(cues[0].payload);
      } else {
        assert read == [clean] + Cues(tail);
        assert read[1..] == Cues(tail) && read[0] == clean;
        assert read == cues <==> clean == cue && Cues(tail) == rest;
        assert clean == cue <==> Safe(cues[0].payload);
        assert forall i :: 0 <= i < |rest| ==> rest[i] == cues[i + 1];
      }
    }
  }

  lemma NoCues()
    ensures Cues(Doc(CleanAll([]))) == []
  {
    assert [""][1..] == [];
  }

  lemma {:induction false} CleanKeepsArrows(s: string)
    ensures Contains(Clean(s), ARROW) == Contains(s, ARROW)
  {
    if s != "" {
      CleanKeepsArrows(s[1..]);
      CleanKeepsPrefix(s);
    }
  }

  lemma CleanKeepsPrefix(s: string)
    ensures StartsWith(Clean(s), ARROW) == StartsWith(s, ARROW)
  {
    CleanAt(s);
    var c := Clean(s);
    if |s| >= 3 {
      assert c[..3] == [c[0], c[1], c[2]] && s[..3] == [s[0], s[1], s[2]];
    }
  }

  lemma {:induction false} CleanAt(s: string)
    ensures |Clean(s)| == |s|
    ensures forall i :: 0 <= i < |s| ==> Clean(s)[i] == if s[i] == '\0' then '\U{FFFD}' else s[i]
  {
    if s != "" {
      CleanAt(s[1..]);
    }
  }

  /** A track of well-formed cues reads back as those cues exactly when every payload is safe. */
  lemma TrackReadsBack(cues: seq<Cue>)
    requires forall i :: 0 <= i < |cues| ==> WellFormed(cues[i])
    ensures Parse(Track(cues)) == Some(cues) <==> forall i :: 0 <= i < |cues| ==> Safe(cues[i].payload)
  {
    hide Lines, Cues, Doc, Tail, Contains, Clean, Safe;
    TrackIsTail(cues);
    assert forall i :: 0 <= i < |cues| ==> WellFormed(cues[i]) && OneLine(cues[i].payload);
    CleanTail("WEBVTT", cues);
    CleanIsIdentity("WEBVTT");
    PreprocessCleans(Track(cues));
    var clean := CleanAll(cues);
    CleanedOneLine(cues);
    TailLines("WEBVTT", clean);
    var lines := ["WEBVTT"] + Doc(clean);
    assert Lines(Preprocess(Track(cues))) == lines && lines[1..] == Doc(clean);
    assert IsSignature("WEBVTT") by { assert "WEBVTT"[..6] == "WEBVTT"; }
    AfterHeaderOf(clean);
    DocReadsBack(cues);
  }

  lemma AfterHeaderOf(cues: seq<Cue>)
    ensures Cues(AfterHeader(Doc(cues))) == Cues(Doc(cues))
  {
    EmptyHasNoArrow();
    hide Contains;
    assert Doc(cues)[0] == "";
    SkipEmpty(Doc(cues));
  }

  lemma {:induction false} CleanedOneLine(cues: seq<Cue>)
    requires forall i :: 0 <= i < |cues| ==> OneLine(cues[i].payload)
    ensures |CleanAll(cues)| == |cues| && forall i :: 0 <= i < |cues| ==> OneLine(CleanAll(cues)[i].payload)
  {
    hide Clean;
    if cues != [] {
      CleanedOneLine(cues[1..]);
      CleanIsIdentity(cues[0].payload);
      assert OneLine(cues[0].payload);
    }
  }

  // ---------- where an arrow can come from ----------

  predicate OccursAt(s: string, p: string, i: nat) {
    i + |p| <= |s| && s[i..i + |p|] == p
  }

  lemma {:induction false} ContainsAt(s: string, p: string)
    ensures Contains(s, p) <==> exists i :: 0 <= i <= |s| && OccursAt(s, p, i)
    decreases |s|
  {
    if StartsWith(s, p) {
      assert OccursAt(s, p, 0);
    } else if s != "" {
      ContainsAt(s[1..], p);
      forall i | 0 <= i < |s| ensures OccursAt(s[1..], p, i) <==> OccursAt(s, p, i + 1) {
        if i + 1 + |p| <= |s| {
          assert s[1..][i..i + |p|] == s[i + 1..i + 1 + |p|];
        }
      }
      if i :| 0 <= i <= |s| && OccursAt(s, p, i) {
        assert i > 0 && OccursAt(s[1..], p, i - 1);
      }
      if i :| 0 <= i <= |s[1..]| && OccursAt(s[1..], p, i) {
        assert OccursAt(s, p, i + 1);
      }
    }
  }

  predicate ArrowAt(s: string, i: nat) {
    i + 3 <= |s| && s[i] == '-' && s[i + 1] == '-' && s[i + 2] == '>'
  }

  lemma ArrowsAt(s: string)
    ensures Contains(s, ARROW) <==> exists i :: 0 <= i < |s| && ArrowAt(s, i)
  {
    hide Contains;
    ContainsAt(s, ARROW);
    forall i | 0 <= i <= |s| ensures OccursAt(s, ARROW, i) <==> ArrowAt(s, i) {
      if i + 3 <= |s| {
        assert s[i..i + 3] == [s[i], s[i + 1], s[i + 2]];
      }
    }
  }

  /** A blank between two texts joins no arrow. */
  lemma ArrowInEither(a: string, b: string)
    ensures Contains(a + " " + b, ARROW) <==> Contains(a, ARROW) || Contains(b, ARROW)
  {
    hide Contains;
    var s := a + " " + b;
    ArrowsAt(s);
    ArrowsAt(a);
    ArrowsAt(b);
    if i :| 0 <= i < |s| && ArrowAt(s, i) {
      assert s[|a|] == ' ';
      assert i + 2 < |a| || i > |a|;
      assert if i + 2 < |a| then ArrowAt(a, i) else ArrowAt(b, i - |a| - 1);
    }
    if i :| 0 <= i < |a| && ArrowAt(a, i) {
      assert ArrowAt(s, i);
    }
    if i :| 0 <= i < |b| && ArrowAt(b, i) {
      assert ArrowAt(s, i + |a| + 1);
    }
  }

  /** Stripping cuts off whitespace at both ends. */
  lemma StripBounds(s: string) returns (i: nat, j: nat)
    ensures i <= j <= |s| && Text.Strip(s) == s[i..j]
    ensures forall k :: 0 <= k < i || j <= k < |s| ==> Text.IsSpace(s[k])
  {
    hide Text.IsSpace, Text.TrimLeft, Text.TrimRight;
    var r := Text.TrimLeft(s);
    var t := Text.TrimRight(r);
    i, j := |s| - |r|, |s| - |r| + |t|;
    assert r == s[i..] && t == r[..|t|];
    forall k | j <= k < |s| ensures Text.IsSpace(s[k]) {
      assert s[k] == r[k - i];
    }
  }

  lemma ArrowInSlice(s: string, i: nat, j: nat, k: nat)
    requires i <= j <= |s| && forall k :: 0 <= k < i || j <= k < |s| ==> Text.IsSpace(s[k])
    ensures ArrowAt(s[i..j], k) ==> ArrowAt(s, k + i)
    ensures ArrowAt(s, k) ==> i <= k && ArrowAt(s[i..j], k - i)
  {
    if ArrowAt(s, k) {
      assert !Text.IsSpace(s[k]) && !Text.IsSpace(s[k + 2]);
    }
  }

  lemma StripKeepsArrows(s: string)
    ensures Contains(Text.Strip(s), ARROW) == Contains(s, ARROW)
  {
    hide Contains, Text.Strip, Text.IsSpace, ArrowAt;
    var i, j := StripBounds(s);
    ArrowsAt(s);
    ArrowsAt(s[i..j]);
    if k :| 0 <= k < j - i && ArrowAt(s[i..j], k) {
      ArrowInSlice(s, i, j, k);
    }
    if k :| 0 <= k < |s| && ArrowAt(s, k) {
      ArrowInSlice(s, i, j, k);
      ArrowIsInside(s[i..j], k - i);
    }
  }

  lemma ArrowIsInside(s: string, i: nat)
    requires ArrowAt(s, i)
    ensures i < |s|
  {
  }

  lemma StripChars(s: string)
    ensures forall c :: c in Text.Strip(s) ==> c in s
  {
    hide Text.Strip;
    var i, j := StripBounds(s);
  }

  // ---------- texts ----------

  lemma {:induction false} SplitLinesHaveNoBreak(s: string)
    ensures forall line, c :: line in SplitLines(s) && c in line ==> !IsBreak(c)
    decreases |s|
  {
    if s != "" {
      var n := LineLength(s);
      assert forall c :: c in s[..n] ==> !IsBreak(c);
      if n < |s| {
        if s[n] == '\r' && n + 1 < |s| && s[n + 1] == '\n' {
          SplitLinesHaveNoBreak(s[n + 2..]);
        } else {
          SplitLinesHaveNoBreak(s[n + 1..]);
        }
      } else {
        assert s == s[..n];
      }
    }
  }

  lemma {:induction false} JoinChars(ws: seq<string>, c: char)
    requires c in Text.Join(ws)
    ensures c == ' ' || exists w :: w in ws && c in w
  {
    if |ws| > 1 && c != ' ' && c !in ws[0] {
      assert c in Text.Join(ws[1..]);
      JoinChars(ws[1..], c);
    }
  }

  lemma {:induction false} KeptLinesAre(lines: seq<string>, line: string)
    ensures line in KeptLines(lines) <==> line != "" && line != ARROW && exists l :: l in lines && line == Text.Strip(l)
  {
    hide Text.Strip;
    if lines != [] {
      KeptLinesAre(lines[1..], line);
      assert lines == [lines[0]] + lines[1..];
    }
  }

  /** A cue text has no line break, and a NUL only where the text had one. */
  lemma CueTextChars(text: string)
    ensures OneLine(CueText(text))
  {
    hide Text.Strip, Text.Join, KeptLines, SplitLines;
    var kept := KeptLines(SplitLines(text));
    StripChars(Text.Join(kept));
    SplitLinesHaveNoBreak(text);
    forall c | c in CueText(text) ensures c != '\n' && c != '\r' {
      JoinChars(kept, c);
      if c != ' ' {
        var w :| w in kept && c in w;
        KeptLinesAre(SplitLines(text), w);
        var l :| l in SplitLines(text) && w == Text.Strip(l);
        StripChars(l);
        assert !IsBreak(c);
      }
    }
  }

  lemma {:induction false} JoinKeepsArrows(ws: seq<string>)
    ensures Contains(Text.Join(ws), ARROW) <==> exists w :: w in ws && Contains(w, ARROW)
  {
    EmptyHasNoArrow();
    hide Contains;
    if |ws| == 1 {
      assert ws[0] in ws;
    } else if |ws| > 1 {
      JoinKeepsArrows(ws[1..]);
      ArrowInEither(ws[0], Text.Join(ws[1..]));
      assert ws == [ws[0]] + ws[1..];
    }
  }

  /** A cue text holds an arrow exactly when some line of the text does without being nothing else. */
  lemma CueTextArrows(text: string)
    ensures Contains(CueText(text), ARROW)
            <==> exists l :: l in SplitLines(text) && Text.Strip(l) != ARROW && Contains(l, ARROW)
  {
    EmptyHasNoArrow();
    hide Contains, Text.Strip, Text.Join, KeptLines, SplitLines;
    var lines := SplitLines(text);
    var kept := KeptLines(lines);
    StripKeepsArrows(Text.Join(kept));
    JoinKeepsArrows(kept);
    if w :| w in kept && Contains(w, ARROW) {
      KeptLinesAre(lines, w);
      var l :| l in lines && w == Text.Strip(l);
      StripKeepsArrows(l);
    }
    if l :| l in lines && Text.Strip(l) != ARROW && Contains(l, ARROW) {
      StripKeepsArrows(l);
      KeptLinesAre(lines, Text.Strip(l));
    }
  }

  // ---------- speakers ----------

  lemma {:induction false} WordsHaveNoSpace(s: string, w: string)
    requires w in Text.Words(s)
    ensures forall c :: c in w ==> !Text.IsSpace(c)
    decreases |s|
  {
    if s != "" {
      if Text.IsSpace(s[0]) {
        WordsHaveNoSpace(s[1..], w);
      } else {
        var n := Text.WordEnd(s);
        if w != s[..n] {
          WordsHaveNoSpace(s[n..], w);
        }
      }
    }
  }

  lemma {:induction false} WithoutChars(s: string, c: char)
    ensures c !in Without(s, c) && forall x :: x in Without(s, c) ==> x in s
  {
    if s != "" {
      WithoutChars(s[1..], c);
    }
  }

  /** A speaker name cannot close its tag, open another, or break the line. */
  lemma VoiceNameChars(speaker: string)
    ensures OneLine(VoiceName(speaker)) && '>' !in VoiceName(speaker) && '<' !in VoiceName(speaker)
  {
    hide Text.Strip, Text.Join, Text.Words, Without;
    var joined := Text.Join(Text.Words(speaker));
    WithoutChars(joined, '>');
    WithoutChars(Without(joined, '>'), '<');
    StripChars(Without(Without(joined, '>'), '<'));
    forall c | c in VoiceName(speaker) ensures c != '\n' && c != '\r' {
      JoinChars(Text.Words(speaker), c);
      if c != ' ' {
        var w :| w in Text.Words(speaker) && c in w;
        WordsHaveNoSpace(speaker, w);
      }
    }
  }

  predicate EndsInDashes(speaker: string) {
    |speaker| >= 2 && speaker[|speaker| - 1] == '-' && speaker[|speaker| - 2] == '-'
  }

  lemma TaggedAt(speaker: string, text: string)
    requires speaker != ""
    ensures var s, close := Payload(speaker, text), 3 + |speaker|;
            && |s| == close + 1 + |text| && s[0] == '<' && s[1] == 'v' && s[2] == ' ' && s[close] == '>'
            && (forall i :: 3 <= i < close ==> s[i] == speaker[i - 3])
            && (forall i :: close < i < |s| ==> s[i] == text[i - close - 1])
  {
    var rest, s := speaker + (">" + text), Payload(speaker, text);
    assert s == "<v " + rest;
    assert forall i :: 3 <= i < |s| ==> s[i] == rest[i - 3];
  }

  lemma TaggedArrowComesFrom(speaker: string, text: string, i: nat)
    requires speaker != "" && '>' !in speaker && ArrowAt(Payload(speaker, text), i)
    ensures EndsInDashes(speaker) || (i > 3 + |speaker| && ArrowAt(text, i - 4 - |speaker|))
  {
    hide Payload;
    TaggedAt(speaker, text);
  }

  lemma TaggedArrowsAppear(speaker: string, text: string)
    requires speaker != ""
    ensures EndsInDashes(speaker) ==> ArrowAt(Payload(speaker, text), 1 + |speaker|)
    ensures forall i: nat :: ArrowAt(text, i) ==> ArrowAt(Payload(speaker, text), i + 4 + |speaker|)
  {
    hide Payload;
    TaggedAt(speaker, text);
  }

  /** A tagged payload holds an arrow if the text does, or if the name ends in two dashes before the closing bracket. */
  lemma PayloadArrows(speaker: string, text: string)
    requires '>' !in speaker
    ensures Contains(Payload(speaker, text), ARROW) <==> Contains(text, ARROW) || EndsInDashes(speaker)
  {
    if speaker != "" {
      hide Contains, Payload, EndsInDashes;
      var s := Payload(speaker, text);
      ArrowsAt(s);
      ArrowsAt(text);
      TaggedArrowsAppear(speaker, text);
      if i :| 0 <= i < |s| && ArrowAt(s, i) {
        TaggedArrowComesFrom(speaker, text, i);
      }
    }
  }

  // ---------- the voice tag ----------

  /** The name and the text of a payload: what stands in a leading voice tag, and what follows it. */
  function ReadVoice(payload: string): (string, string) {
    if StartsWith(payload, "<v ") && '>' in payload[3..] then InTag(payload[3..]) else ("", payload)
  }

  function InTag(rest: string): (string, string)
    requires '>' in rest
  {
    var n := Before(rest, '>');
    (rest[..n], rest[n + 1..])
  }

  function Before(s: string, c: char): (n: nat)
    requires c in s
    ensures n < |s| && s[n] == c && c !in s[..n]
  {
    if s[0] == c then 0 else 1 + Before(s[1..], c)
  }

  lemma {:induction false} BeforeIs(s: string, c: char, n: nat)
    requires n < |s| && s[n] == c && c !in s[..n]
    ensures Before(s, c) == n
  {
    if n > 0 {
      assert s[0] == s[..n][0];
      assert s[1..][..n - 1] == s[..n][1..];
      BeforeIs(s[1..], c, n - 1);
    }
  }

  lemma TagReads(speaker: string, text: string)
    requires '>' !in speaker
    ensures '>' in speaker + (">" + text) && InTag(speaker + (">" + text)) == (speaker, text)
  {
    var rest := speaker + (">" + text);
    assert rest[|speaker|] == '>' && rest[..|speaker|] == speaker && rest[|speaker| + 1..] == text;
    BeforeIs(rest, '>', |speaker|);
  }

  /** Name and text come back from a payload; without a name, exactly when the text does not itself look like a voice tag. */
  lemma VoiceComesBack(speaker: string, text: string)
    requires '>' !in speaker
    ensures speaker != "" ==> ReadVoice(Payload(speaker, text)) == (speaker, text)
    ensures speaker == "" ==> (ReadVoice(Payload(speaker, text)) == (speaker, text)
                               <==> !(StartsWith(text, "<v ") && '>' in text[3..]))
  {
    hide InTag;
    if speaker != "" {
      var rest := speaker + (">" + text);
      TagReads(speaker, text);
      assert ("<v " + rest)[..3] == "<v " && ("<v " + rest)[3..] == rest;
    } else if StartsWith(text, "<v ") && '>' in text[3..] {
      TagShrinks(text[3..]);
    }
  }

  lemma TagShrinks(rest: string)
    requires '>' in rest
    ensures |InTag(rest).1| < |rest|
  {
  }

  // ---------- the track of a transcript ----------

  /** The sentence becomes a cue. */
  predicate Shown(s: Option<Sentence>) {
    s.Some? && CueText(s.value.text) != "" && s.value.start.Some? && s.value.end.Some?
  }

  /** Nothing in the sentence or its speaker's name collides with the format. */
  ghost predicate Harmless(speaker: string, text: string) {
    && !EndsInDashes(VoiceName(speaker))
    && (forall l :: l in SplitLines(text) && Text.Strip(l) != ARROW ==> !Contains(l, ARROW))
    && '\0' !in Payload(VoiceName(speaker), CueText(text))
  }

  lemma CueIsWellFormed(speaker: string, s: Option<Sentence>)
    requires Shown(s)
    ensures var cue := SentenceCue(VoiceName(speaker), s);
            cue.Some? && WellFormed(cue.value) && (Safe(cue.value.payload) <==> Harmless(speaker, s.value.text))
  {
    hide VoiceName, CueText, Contains, SplitLines, Text.Strip;
    var name, text := VoiceName(speaker), CueText(s.value.text);
    VoiceNameChars(speaker);
    CueTextChars(s.value.text);
    CueTextArrows(s.value.text);
    PayloadArrows(name, text);
    assert OneLine(Payload(name, text));
  }

  lemma {:induction false} BlockCuesAre(speaker: string, sentences: seq<Option<Sentence>>, cue: Cue)
    ensures cue in BlockCues(speaker, sentences) <==> exists i :: Gives(speaker, sentences, i, cue)
    decreases |sentences|
  {
    hide SentenceCue, Gives;
    if sentences != [] {
      var n := |sentences| - 1;
      BlockCuesAre(speaker, sentences[..n], cue);
      BlockCuesStep(speaker, sentences, cue);
      forall i
        ensures Gives(speaker, sentences, i, cue)
                <==> Gives(speaker, sentences[..n], i, cue) || (i == n && Gives(speaker, sentences, n, cue))
      {
        GivesBefore(speaker, sentences, i, cue);
      }
    } else {
      NothingGives(speaker, cue);
    }
  }

  /** Sentence `i` becomes this cue. */
  ghost predicate Gives(speaker: string, sentences: seq<Option<Sentence>>, i: int, cue: Cue) {
    0 <= i < |sentences| && SentenceCue(speaker, sentences[i]) == Some(cue)
  }

  lemma NothingGives(speaker: string, cue: Cue)
    ensures cue !in BlockCues(speaker, []) && forall i :: !Gives(speaker, [], i, cue)
  {
  }

  lemma GivesBefore(speaker: string, sentences: seq<Option<Sentence>>, i: int, cue: Cue)
    requires sentences != []
    ensures var n := |sentences| - 1;
            Gives(speaker, sentences, i, cue)
            <==> Gives(speaker, sentences[..n], i, cue) || (i == n && Gives(speaker, sentences, n, cue))
  {
    hide SentenceCue;
  }

  lemma BlockCuesStep(speaker: string, sentences: seq<Option<Sentence>>, cue: Cue)
    requires sentences != []
    ensures var n := |sentences| - 1;
            cue in BlockCues(speaker, sentences)
            <==> cue in BlockCues(speaker, sentences[..n]) || Gives(speaker, sentences, n, cue)
  {
    hide SentenceCue;
  }

  ghost predicate FromSentence(blocks: seq<Option<Block>>, b: int, i: int, cue: Cue) {
    && 0 <= b < |blocks| && blocks[b].Some? && 0 <= i < |blocks[b].value.sentences|
    && SentenceCue(VoiceName(blocks[b].value.speaker), blocks[b].value.sentences[i]) == Some(cue)
  }

  lemma {:induction false} EmittedAre(blocks: seq<Option<Block>>, cue: Cue)
    ensures cue in Emitted(blocks) <==> exists b, i :: FromSentence(blocks, b, i, cue)
    decreases |blocks|
  {
    hide SentenceCue, VoiceName, BlockCues;
    if blocks != [] {
      var n := |blocks| - 1;
      EmittedAre(blocks[..n], cue);
      if blocks[n].Some? {
        BlockCuesAre(VoiceName(blocks[n].value.speaker), blocks[n].value.sentences, cue);
      }
      if b, i :| FromSentence(blocks, b, i, cue) {
        if b < n {
          assert FromSentence(blocks[..n], b, i, cue);
        } else {
          assert Gives(VoiceName(blocks[n].value.speaker), blocks[n].value.sentences, i, cue);
        }
      }
      if b, i :| FromSentence(blocks[..n], b, i, cue) {
        assert FromSentence(blocks, b, i, cue);
      }
      if blocks[n].Some? && cue in BlockCues(VoiceName(blocks[n].value.speaker), blocks[n].value.sentences) {
        var i :| Gives(VoiceName(blocks[n].value.speaker), blocks[n].value.sentences, i, cue);
        assert FromSentence(blocks, n, i, cue);
      }
    }
  }

  /** Every sentence that becomes a cue is harmless. */
  ghost predicate AllHarmless(blocks: seq<Option<Block>>) {
    forall b, i :: 0 <= b < |blocks| && blocks[b].Some? && 0 <= i < |blocks[b].value.sentences| ==>
      Shown(blocks[b].value.sentences[i]) ==> Harmless(blocks[b].value.speaker, blocks[b].value.sentences[i].value.text)
  }

  /**
   The track of a transcript parses back to exactly the emitted cues, in order
   and to the millisecond, if and only if no shown sentence has an inner arrow,
   no NUL, and no speaker name ending in two dashes.
   */
  lemma TranscriptReadsBack(blocks: seq<Option<Block>>)
    ensures Parse(Track(Emitted(blocks))) == Some(Emitted(blocks)) <==> AllHarmless(blocks)
  {
    hide Parse, Track, SentenceCue, Harmless, WellFormed, Safe, Emitted, CueText;
    var cues := Emitted(blocks);
    forall i | 0 <= i < |cues| ensures WellFormed(cues[i]) {
      EmittedIsWellFormed(blocks, cues[i]);
    }
    TrackReadsBack(cues);
    if forall i :: 0 <= i < |cues| ==> Safe(cues[i].payload) {
      forall b, i | 0 <= b < |blocks| && blocks[b].Some? && 0 <= i < |blocks[b].value.sentences|
          && Shown(blocks[b].value.sentences[i])
        ensures Harmless(blocks[b].value.speaker, blocks[b].value.sentences[i].value.text)
      {
        var cue := ShownIsEmitted(blocks, b, i);
        var k :| 0 <= k < |cues| && cues[k] == cue;
        assert Safe(cues[k].payload);
      }
    }
    if AllHarmless(blocks) {
      forall k | 0 <= k < |cues| ensures Safe(cues[k].payload) {
        EmittedIsWellFormed(blocks, cues[k]);
      }
    }
  }

  lemma EmittedIsWellFormed(blocks: seq<Option<Block>>, cue: Cue)
    requires cue in Emitted(blocks)
    ensures WellFormed(cue) && (AllHarmless(blocks) ==> Safe(cue.payload))
  {
    hide Emitted, WellFormed, Safe, Harmless, VoiceName, CueText;
    EmittedAre(blocks, cue);
    var b, i :| FromSentence(blocks, b, i, cue);
    CueIsWellFormed(blocks[b].value.speaker, blocks[b].value.sentences[i]);
  }

  lemma ShownIsEmitted(blocks: seq<Option<Block>>, b: int, i: int) returns (cue: Cue)
    requires 0 <= b < |blocks| && blocks[b].Some? && 0 <= i < |blocks[b].value.sentences| && Shown(blocks[b].value.sentences[i])
    ensures cue in Emitted(blocks)
    ensures Safe(cue.payload) <==> Harmless(blocks[b].value.speaker, blocks[b].value.sentences[i].value.text)
  {
    hide Emitted, WellFormed, Safe, Harmless, SentenceCue, Shown;
    CueIsWellFormed(blocks[b].value.speaker, blocks[b].value.sentences[i]);
    cue := SentenceCue(VoiceName(blocks[b].value.speaker), blocks[b].value.sentences[i]).value;
    assert FromSentence(blocks, b, i, cue);
    EmittedAre(blocks, cue);
  }

  /** A speaker called "Ann--" spoils an innocent sentence: its cue reads back without its text. */
  lemma DashesSpoilACue()
    ensures var cue := Cue(0, 1000, Payload("Ann--", "Hi"));
            Parse(Track([cue])) != Some([cue])
  {
    hide Parse, Track, Contains;
    var cue := Cue(0, 1000, Payload("Ann--", "Hi"));
    assert WellFormed([cue][0]);
    PayloadArrows("Ann--", "Hi");
    TrackReadsBack([cue]);
    assert !Safe([cue][0].payload);
  }
}
