/**
 Reading a WebVTT file as the W3C specification's parser does (section 6.1 for
 the file, section 6.3 for cue timings), line by line. Style and region blocks
 and cue settings are not kept.
 */
module VttParser {
  import opened Wrappers

  /** Times in milliseconds. */
  datatype Cue = Cue(start: int, end: int, payload: string)

  const ARROW := "-->"

  predicate StartsWith(s: string, p: string) {
    |p| <= |s| && s[..|p|] == p
  }

  predicate Contains(s: string, p: string) {
    StartsWith(s, p) || (s != "" && Contains(s[1..], p))
  }

  predicate IsDigit(c: char) { '0' <= c <= '9' }

  // ---------- input stream ----------

  /** NUL is replaced, and every line ending becomes one line feed. */
  function Preprocess(s: string): string {
    if s == "" then ""
    else if s[0] == '\0' then ['\U{FFFD}'] + Preprocess(s[1..])
    else if s[0] == '\r' then ['\n'] + Preprocess(if |s| > 1 && s[1] == '\n' then s[2..] else s[1..])
    else [s[0]] + Preprocess(s[1..])
  }

  function Lines(s: string): (lines: seq<string>)
    ensures lines != []
  {
    if s == "" then [""]
    else
      var rest := Lines(s[1..]);
      if s[0] == '\n' then [""] + rest else [[s[0]] + rest[0]] + rest[1..]
  }

  // ---------- timestamps ----------

  /** The digits at the front and what follows them. */
  function TakeDigits(s: string): (string, string) {
    if s == "" || !IsDigit(s[0]) then ("", s)
    else
      var (digits, rest) := TakeDigits(s[1..]);
      ([s[0]] + digits, rest)
  }

  function Value(digits: string): int {
    if digits == "" then 0 else Value(digits[..|digits| - 1]) * 10 + (digits[|digits| - 1] as int - '0' as int)
  }

  /** A colon or full stop and exactly `width` digits. */
  function Unit(s: string, mark: char, width: nat): Option<(int, string)> {
    if s == "" || s[0] != mark then None
    else
      var (digits, rest) := TakeDigits(s[1..]);
      if |digits| == width then Some((Value(digits), rest)) else None
  }

  function Timestamp(s: string): Option<(int, string)> {
    var (digits, rest) := TakeDigits(s);
    if digits == "" then None
    else
      match Unit(rest, ':', 2)
      case None => None
      case Some((second, rest2)) =>
        var hours := |digits| != 2 || Value(digits) > 59 || (rest2 != "" && rest2[0] == ':');
        if hours then
          match Unit(rest2, ':', 2)
          case None => None
          case Some((third, rest3)) => Fraction(Value(digits), second, third, rest3)
        else Fraction(0, Value(digits), second, rest2)
  }

  function Fraction(hours: int, minutes: int, seconds: int, s: string): Option<(int, string)> {
    match Unit(s, '.', 3)
    case None => None
    case Some((millis, rest)) =>
      if minutes > 59 || seconds > 59 then None
      else Some((((hours * 60 + minutes) * 60 + seconds) * 1000 + millis, rest))
  }

  function SkipSpace(s: string): string {
    if s != "" && (s[0] == ' ' || s[0] == '\t' || s[0] == '\U{0C}') then SkipSpace(s[1..]) else s
  }

  /** The two times of a timing line; what follows them are settings. */
  function Timings(line: string): Option<(int, int)> {
    match Timestamp(SkipSpace(line))
    case None => None
    case Some((start, rest)) =>
      var arrow := SkipSpace(rest);
      if !StartsWith(arrow, ARROW) then None
      else
        match Timestamp(SkipSpace(arrow[3..]))
        case None => None
        case Some((end, _)) => Some((start, end))
  }

  // ---------- blocks ----------

  function Append(buffer: string, line: string): string {
    if buffer == "" then line else buffer + "\n" + line
  }

  function Finish(times: Option<(int, int)>, buffer: string): Option<Cue> {
    match times
    case None => None
    case Some((start, end)) => Some(Cue(start, end, buffer))
  }

  /** Collect a block: the cue in it, if any, and the lines after it. */
  function CollectBlock(lines: seq<string>, count: nat, buffer: string, seenArrow: bool, times: Option<(int, int)>):
      (r: (Option<Cue>, seq<string>))
    ensures |r.1| <= |lines| && (count == 0 && lines != [] ==> |r.1| < |lines|)
    decreases |lines|
  {
    if lines == [] then (Finish(times, buffer), [])
    else if Contains(lines[0], ARROW) then
      if count == 0 || (count == 1 && !seenArrow) then
        var found := Timings(lines[0]);
        CollectBlock(lines[1..], count + 1, if found.Some? then "" else buffer, true, found)
      else (Finish(times, buffer), lines)
    else if lines[0] == "" then (Finish(times, buffer), lines[1..])
    else CollectBlock(lines[1..], count + 1, Append(buffer, lines[0]), seenArrow, times)
  }

  function Cues(lines: seq<string>): seq<Cue>
    decreases |lines|
  {
    if lines == [] then []
    else if lines[0] == "" then Cues(lines[1..])
    else
      var (cue, rest) := CollectBlock(lines, 0, "", false, None);
      if cue.Some? then [cue.value] + Cues(rest) else Cues(rest)
  }

  /** The header block ends at an empty line or before a line with an arrow. */
  function AfterHeader(lines: seq<string>): (rest: seq<string>)
    ensures |rest| <= |lines|
  {
    if lines == [] || Contains(lines[0], ARROW) then lines
    else if lines[0] == "" then lines[1..]
    else AfterHeader(lines[1..])
  }

  predicate IsSignature(line: string) {
    StartsWith(line, "WEBVTT") && (|line| > 6 ==> line[6] == ' ' || line[6] == '\t')
  }

  /** The cues of a file, or nothing when it is not WebVTT. */
  function Parse(file: string): Option<seq<Cue>> {
    var lines := Lines(Preprocess(file));
    if IsSignature(lines[0]) then Some(Cues(AfterHeader(lines[1..]))) else None
  }
}
