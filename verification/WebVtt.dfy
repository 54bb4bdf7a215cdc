/**
 Rendering player blocks as a WebVTT track. The laws put the renderer beside
 the W3C parser: which tracks read back as the cues that were written.
 */
module WebVtt {
  import opened Wrappers
  import opened VttParser
  import Text

  // ---------- timestamps ----------

  function Digits(n: nat): string {
    if n < 10 then ['0' + n as char] else Digits(n / 10) + ['0' + (n % 10) as char]
  }

  /** A number, zero-padded to at least `width` digits. */
  function Padded(n: nat, width: nat): string {
    Zeros(if |Digits(n)| < width then width - |Digits(n)| else 0) + Digits(n)
  }

  function Zeros(n: nat): string {
    if n == 0 then "" else Zeros(n - 1) + "0"
  }

  function Clamp(millis: int): nat {
    if millis < 0 then 0 else millis
  }

  function FormatTimestamp(millis: int): string {
    var total := Clamp(millis);
    var hours, rem := total / 3600000, total % 3600000;
    var minutes, rest := rem / 60000, rem % 60000;
    var secs, ms := rest / 1000, rest % 1000;
    Padded(hours, 2) + ":" + Padded(minutes, 2) + ":" + Padded(secs, 2) + "." + Padded(ms, 3)
  }

  // ---------- labels and texts ----------

  function Without(s: string, c: char): string {
    if s == "" then "" else if s[0] == c then Without(s[1..], c) else [s[0]] + Without(s[1..], c)
  }

  function VoiceName(speaker: string): string {
    Text.Strip(Without(Without(Text.Join(Text.Words(speaker)), '>'), '<'))
  }

  /** Where `str.splitlines` breaks. */
  predicate IsBreak(c: char) {
    c == '\n' || c == '\r' || c == '\U{0B}' || c == '\U{0C}' || '\U{1C}' <= c <= '\U{1E}'
    || c == '\U{85}' || c == '\U{2028}' || c == '\U{2029}'
  }

  function LineLength(s: string): (n: nat)
    ensures n <= |s| && (n < |s| ==> IsBreak(s[n]))
    ensures forall i :: 0 <= i < n ==> !IsBreak(s[i])
  {
    if s == "" || IsBreak(s[0]) then 0 else 1 + LineLength(s[1..])
  }

  function SplitLines(s: string): seq<string>
    decreases |s|
  {
    if s == "" then []
    else
      var n := LineLength(s);
      if n == |s| then [s]
      else if s[n] == '\r' && n + 1 < |s| && s[n + 1] == '\n' then [s[..n]] + SplitLines(s[n + 2..])
      else [s[..n]] + SplitLines(s[n + 1..])
  }

  function KeptLines(lines: seq<string>): seq<string> {
    if lines == [] then []
    else
      var line := Text.Strip(lines[0]);
      if line != "" && line != ARROW then [line] + KeptLines(lines[1..]) else KeptLines(lines[1..])
  }

  function CueText(text: string): string {
    Text.Strip(Text.Join(KeptLines(SplitLines(text))))
  }

  function Payload(speaker: string, text: string): string {
    if speaker != "" then "<v " + (speaker + (">" + text)) else text
  }

  // ---------- the renderer ----------

  /** A sentence as the player has it; a time that is not a number is `None`, other times are in milliseconds. */
  datatype Sentence = Sentence(text: string, start: Option<int>, end: Option<int>)

  /** Blocks and sentences that are not records are `None`. */
  datatype Block = Block(speaker: string, sentences: seq<Option<Sentence>>)

  function SentenceCue(speaker: string, s: Option<Sentence>): Option<Cue> {
    if s.None? || CueText(s.value.text) == "" || s.value.start.None? || s.value.end.None? then None
    else Some(Cue(Clamp(s.value.start.value), Clamp(s.value.end.value), Payload(speaker, CueText(s.value.text))))
  }

  function BlockCues(speaker: string, sentences: seq<Option<Sentence>>): seq<Cue> {
    if sentences == [] then []
    else
      var cue := SentenceCue(speaker, sentences[|sentences| - 1]);
      BlockCues(speaker, sentences[..|sentences| - 1]) + (if cue.Some? then [cue.value] else [])
  }

  /** The cues of a track: one for each sentence with text and times, in order. */
  function Emitted(blocks: seq<Option<Block>>): seq<Cue> {
    if blocks == [] then []
    else
      var block := blocks[|blocks| - 1];
      Emitted(blocks[..|blocks| - 1])
      + (if block.Some? then BlockCues(VoiceName(block.value.speaker), block.value.sentences) else [])
  }

  function CueBlock(cue: Cue): string {
    (FormatTimestamp(cue.start) + " --> " + FormatTimestamp(cue.end)) + "\n" + cue.payload
  }

  function Parts(cues: seq<Cue>): seq<string> {
    ["WEBVTT"] + seq(|cues|, i requires 0 <= i < |cues| => CueBlock(cues[i]))
  }

  function JoinBlank(parts: seq<string>): string {
    if |parts| == 0 then "" else if |parts| == 1 then parts[0] else parts[0] + "\n\n" + JoinBlank(parts[1..])
  }

  function Track(cues: seq<Cue>): string {
    JoinBlank(Parts(cues)) + "\n"
  }

  lemma PartsAppend(cues: seq<Cue>, cue: Cue)
    ensures Parts(cues + [cue]) == Parts(cues) + [CueBlock(cue)]
  {
  }

  lemma FormatClamps(millis: int)
    ensures FormatTimestamp(Clamp(millis)) == FormatTimestamp(millis)
  {
  }

  method RenderWebvtt(blocks: seq<Option<Block>>) returns (track: string)
    ensures track == Track(Emitted(blocks))
  {
    hide VoiceName, CueText, FormatTimestamp, Parts;
    var parts := ["WEBVTT"];
    ghost var cues: seq<Cue> := [];
    assert parts == Parts(cues) by { NoParts(); }
    for b := 0 to |blocks|
      invariant cues == Emitted(blocks[..b]) && parts == Parts(cues)
    {
      assert blocks[..b + 1][..b] == blocks[..b];
      if blocks[b].Some? {
        var speaker := VoiceName(blocks[b].value.speaker);
        var sentences := blocks[b].value.sentences;
        ghost var before := cues;
        for i := 0 to |sentences|
          invariant cues == before + BlockCues(speaker, sentences[..i]) && parts == Parts(cues)
        {
          assert sentences[..i + 1][..i] == sentences[..i];
          ghost var done := BlockCues(speaker, sentences[..i]);
          if sentences[i].Some? {
            var text := CueText(sentences[i].value.text);
            if text != "" && sentences[i].value.start.Some? && sentences[i].value.end.Some? {
              var start, end := sentences[i].value.start.value, sentences[i].value.end.value;
              var payload := if speaker != "" then "<v " + (speaker + (">" + text)) else text;
              FormatClamps(start);
              FormatClamps(end);
              ghost var cue := Cue(Clamp(start), Clamp(end), payload);
              PartsAppend(cues, cue);
              parts := parts + [(FormatTimestamp(start) + " --> " + FormatTimestamp(end)) + "\n" + payload];
              cues := cues + [cue];
              assert before + (done + [cue]) == before + done + [cue];
            }
          }
        }
        assert sentences[..|sentences|] == sentences;
      }
    }
    assert blocks[..|blocks|] == blocks;
    track := JoinBlank(parts) + "\n";
  }

  lemma NoParts()
    ensures Parts([]) == ["WEBVTT"]
  {
  }
}
