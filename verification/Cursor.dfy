/**
 The opaque paging cursor: a timestamp and a task id joined by a bar, in
 unpadded URL-safe base64 (RFC 4648, section 5). The printers and parsers of
 timestamps, ids and UTF-8 belong to the standard library and are parameters.
 */
module Cursor {
  import opened Wrappers

  datatype Key = Key(createdAt: int, id: int)

  datatype CursorError = EmptyCursor | NotBase64 | MissingSeparator | InvalidDatetime | InvalidUuid

  const SEP: char := '|'

  // ---------- base64 ----------

  predicate Bytes(data: seq<int>) {
    forall i :: 0 <= i < |data| ==> 0 <= data[i] < 256
  }

  function Symbol(v: int): char
    requires 0 <= v < 64
  {
    if v < 26 then 'A' + v as char
    else if v < 52 then 'a' + (v - 26) as char
    else if v < 62 then '0' + (v - 52) as char
    else if v == 62 then '-' else '_'
  }

  /** The value of a symbol; the URL-safe decoder also takes the two symbols of the standard alphabet. */
  function Value(c: char): Option<int> {
    if 'A' <= c <= 'Z' then Some(c as int - 'A' as int)
    else if 'a' <= c <= 'z' then Some(c as int - 'a' as int + 26)
    else if '0' <= c <= '9' then Some(c as int - '0' as int + 52)
    else if c == '-' || c == '+' then Some(62)
    else if c == '_' || c == '/' then Some(63)
    else None
  }

  lemma ValueOfSymbol(v: int)
    requires 0 <= v < 64
    ensures Value(Symbol(v)) == Some(v) && Symbol(v) != '='
  {
  }

  function Group(a: int, b: int, c: int): string
    requires 0 <= a < 256 && 0 <= b < 256 && 0 <= c < 256
    ensures |Group(a, b, c)| == 4
  {
    [Symbol(a / 4), Symbol(a % 4 * 16 + b / 16), Symbol(b % 16 * 4 + c / 64), Symbol(c % 64)]
  }

  /** Padded base64. */
  function Padded(data: seq<int>): string
    requires Bytes(data)
  {
    if data == [] then ""
    else if |data| == 1 then Group(data[0], 0, 0)[..2] + "=="
    else if |data| == 2 then Group(data[0], data[1], 0)[..3] + "="
    else Group(data[0], data[1], data[2]) + Padded(data[3..])
  }

  function StripPadding(s: string): string {
    if s != "" && s[|s| - 1] == '=' then StripPadding(s[..|s| - 1]) else s
  }

  /** What the decoder has so far: finished bytes, symbols of the open group, its unused bits, and padding seen in it. */
  datatype Partial = Partial(data: seq<int>, quad: nat, left: int, pads: nat)

  function Push(p: Partial, v: int): Partial {
    match p.quad
    case 0 => Partial(p.data, 1, v, 0)
    case 1 => Partial(p.data + [p.left * 4 + v / 16], 2, v % 16, 0)
    case 2 => Partial(p.data + [p.left * 16 + v / 4], 3, v % 4, 0)
    case _ => Partial(p.data + [p.left * 64 + v], 0, 0, 0)
  }

  /** The lenient decoder: foreign characters are skipped, complete padding ends the data. */
  function Feed(s: string, p: Partial): Result<seq<int>, CursorError> {
    if s == "" then if p.quad == 0 then Success(p.data) else Failure(NotBase64)
    else if s[0] == '=' then
      if p.quad >= 2 && p.quad + p.pads + 1 >= 4 then Success(p.data)
      else Feed(s[1..], p.(pads := if p.quad >= 2 then p.pads + 1 else p.pads))
    else
      match Value(s[0])
      case None => Feed(s[1..], p)
      case Some(v) => Feed(s[1..], Push(p, v))
  }

  function Repeat(n: nat): string {
    if n == 0 then "" else "=" + Repeat(n - 1)
  }

  function UnpaddedEncode(data: seq<int>): string
    requires Bytes(data)
  {
    StripPadding(Padded(data))
  }

  predicate IsAscii(s: string) {
    forall i :: 0 <= i < |s| ==> s[i] as int < 128
  }

  /** Foreign characters are refused outright when they are not ASCII. */
  function UnpaddedDecode(raw: string): Result<seq<int>, CursorError> {
    if !IsAscii(raw) then Failure(NotBase64)
    else Feed(raw + Repeat((4 - |raw| % 4) % 4), Partial([], 0, 0, 0))
  }

  lemma SymbolIsAscii(v: int)
    requires 0 <= v < 64
    ensures Symbol(v) as int < 128
  {
  }

  lemma GroupIsAscii(a: int, b: int, c: int)
    requires 0 <= a < 256 && 0 <= b < 256 && 0 <= c < 256
    ensures IsAscii(Group(a, b, c)) && IsAscii(Group(a, b, c)[..2]) && IsAscii(Group(a, b, c)[..3])
  {
    hide Symbol;
    SymbolIsAscii(a / 4);
    SymbolIsAscii(a % 4 * 16 + b / 16);
    SymbolIsAscii(b % 16 * 4 + c / 64);
    SymbolIsAscii(c % 64);
  }

  lemma {:induction false} PaddedIsAscii(data: seq<int>)
    requires Bytes(data)
    ensures IsAscii(Padded(data))
  {
    hide Group;
    if |data| == 1 {
      GroupIsAscii(data[0], 0, 0);
    } else if |data| == 2 {
      GroupIsAscii(data[0], data[1], 0);
    } else if data != [] {
      GroupIsAscii(data[0], data[1], data[2]);
      PaddedIsAscii(data[3..]);
    }
  }

  lemma {:induction false} StripIsAscii(s: string)
    requires IsAscii(s)
    ensures IsAscii(StripPadding(s))
  {
    if s != "" && s[|s| - 1] == '=' {
      StripIsAscii(s[..|s| - 1]);
    }
  }

  lemma StripNothing(s: string)
    requires s != "" ==> s[|s| - 1] != '='
    ensures StripPadding(s) == s
  {
  }

  /** `s` is `full` without its padding, which the length of `s` restores. */
  ghost predicate Strips(s: string, full: string) {
    s == StripPadding(full) && s + Repeat((4 - |s| % 4) % 4) == full && '=' !in s
  }

  lemma StripOne(a: int)
    requires 0 <= a < 256
    ensures Strips(Group(a, 0, 0)[..2], Group(a, 0, 0)[..2] + "==")
  {
    hide Group;
    var s := Group(a, 0, 0)[..2];
    SymbolsOnly(a, 0, 0);
    assert (s + "==")[..3] == s + "=" && (s + "=")[..2] == s;
    assert StripPadding(s + "==") == StripPadding(s + "=") == StripPadding(s);
    StripNothing(s);
    assert Repeat(0) == "" && Repeat(1) == "=" && Repeat(2) == "==";
  }

  lemma StripTwo(a: int, b: int)
    requires 0 <= a < 256 && 0 <= b < 256
    ensures Strips(Group(a, b, 0)[..3], Group(a, b, 0)[..3] + "=")
  {
    hide Group;
    var s := Group(a, b, 0)[..3];
    SymbolsOnly(a, b, 0);
    assert (s + "=")[..3] == s;
    StripNothing(s);
    assert Repeat(1) == "=";
  }

  lemma StripMore(group: string, s: string, rest: string)
    requires |group| == 4 && '=' !in group && Strips(s, rest)
    ensures Strips(group + s, group + rest)
  {
    hide StripPadding, Repeat;
    StripPrefix(group, rest);
    var pad := Repeat((4 - |s| % 4) % 4);
    assert |group + s| % 4 == |s| % 4;
    assert group + (s + pad) == (group + s) + pad;
  }

  /** Stripping removes nothing but the padding that the length restores. */
  lemma {:induction false} StripThenPad(data: seq<int>)
    requires Bytes(data)
    ensures Strips(UnpaddedEncode(data), Padded(data))
    decreases |data|
  {
    hide Group, Strips;
    if data == [] {
      StripEmpty();
    } else if |data| == 1 {
      StripOne(data[0]);
      SameStrip(Group(data[0], 0, 0)[..2], Padded(data));
    } else if |data| == 2 {
      StripTwo(data[0], data[1]);
      SameStrip(Group(data[0], data[1], 0)[..3], Padded(data));
    } else {
      StripThenPad(data[3..]);
      SymbolsOnly(data[0], data[1], data[2]);
      var group := Group(data[0], data[1], data[2]);
      StripMore(group, UnpaddedEncode(data[3..]), Padded(data[3..]));
      SameStrip(group + UnpaddedEncode(data[3..]), Padded(data));
    }
  }

  lemma StripEmpty()
    ensures Strips(UnpaddedEncode([]), Padded([]))
  {
  }

  lemma SameStrip(s: string, full: string)
    requires Strips(s, full)
    ensures s == StripPadding(full)
  {
  }

  lemma SymbolsOnly(a: int, b: int, c: int)
    requires 0 <= a < 256 && 0 <= b < 256 && 0 <= c < 256
    ensures '=' !in Group(a, b, c)
  {
    ValueOfSymbol(a / 4);
    ValueOfSymbol(a % 4 * 16 + b / 16);
    ValueOfSymbol(b % 16 * 4 + c / 64);
    ValueOfSymbol(c % 64);
  }

  lemma StripPrefix(group: string, rest: string)
    requires group != "" && '=' !in group
    ensures StripPadding(group + rest) == group + StripPadding(rest)
    decreases |rest|
  {
    if rest == "" {
      assert group + rest == group;
    } else if rest[|rest| - 1] == '=' {
      assert (group + rest)[..|group + rest| - 1] == group + rest[..|rest| - 1];
      StripPrefix(group, rest[..|rest| - 1]);
    }
  }

  // ---------- decoding what was encoded ----------

  lemma FeedSymbol(v: int, rest: string, p: Partial)
    requires 0 <= v < 64
    ensures Feed([Symbol(v)] + rest, p) == Feed(rest, Push(p, v))
  {
    ValueOfSymbol(v);
    assert ([Symbol(v)] + rest)[1..] == rest;
  }

  /** Three bytes come back from their four symbols. */
  lemma FeedGroup(a: int, b: int, c: int, rest: string, data: seq<int>)
    requires 0 <= a < 256 && 0 <= b < 256 && 0 <= c < 256
    ensures Feed(Group(a, b, c) + rest, Partial(data, 0, 0, 0)) == Feed(rest, Partial(data + [a, b, c], 0, 0, 0))
  {
    hide Feed, Symbol;
    var v0, v1, v2, v3 := a / 4, a % 4 * 16 + b / 16, b % 16 * 4 + c / 64, c % 64;
    var t0, t1, t2, t3 := [Symbol(v0)], [Symbol(v1)], [Symbol(v2)], [Symbol(v3)];
    assert Group(a, b, c) + rest == t0 + (t1 + (t2 + (t3 + rest)));
    FeedSymbol(v0, t1 + (t2 + (t3 + rest)), Partial(data, 0, 0, 0));
    FeedSymbol(v1, t2 + (t3 + rest), Partial(data, 1, v0, 0));
    FeedSymbol(v2, t3 + rest, Partial(data + [a], 2, v1 % 16, 0));
    FeedSymbol(v3, rest, Partial(data + [a] + [b], 3, v2 % 4, 0));
    assert data + [a] + [b] + [c] == data + [a, b, c];
  }

  lemma PaddingEnds(data: seq<int>, left: int)
    ensures Feed("==", Partial(data, 2, left, 0)) == Feed("=", Partial(data, 3, left, 0)) == Success(data)
  {
    assert "=="[1..] == "=";
  }

  lemma FeedOne(a: int, data: seq<int>)
    requires 0 <= a < 256
    ensures Feed(Group(a, 0, 0)[..2] + "==", Partial(data, 0, 0, 0)) == Success(data + [a])
  {
    hide Feed, Symbol;
    var v0, v1 := a / 4, a % 4 * 16;
    assert Group(a, 0, 0)[..2] + "==" == [Symbol(v0)] + ([Symbol(v1)] + "==");
    FeedSymbol(v0, [Symbol(v1)] + "==", Partial(data, 0, 0, 0));
    FeedSymbol(v1, "==", Partial(data, 1, v0, 0));
    PaddingEnds(data + [a], v1 % 16);
  }

  lemma FeedTwo(a: int, b: int, data: seq<int>)
    requires 0 <= a < 256 && 0 <= b < 256
    ensures Feed(Group(a, b, 0)[..3] + "=", Partial(data, 0, 0, 0)) == Success(data + [a, b])
  {
    hide Feed, Symbol;
    var v0, v1, v2 := a / 4, a % 4 * 16 + b / 16, b % 16 * 4;
    assert Group(a, b, 0)[..3] + "=" == [Symbol(v0)] + ([Symbol(v1)] + ([Symbol(v2)] + "="));
    FeedSymbol(v0, [Symbol(v1)] + ([Symbol(v2)] + "="), Partial(data, 0, 0, 0));
    FeedSymbol(v1, [Symbol(v2)] + "=", Partial(data, 1, v0, 0));
    FeedSymbol(v2, "=", Partial(data + [a], 2, v1 % 16, 0));
    PaddingEnds(data + [a] + [b], v2 % 4);
    assert data + [a] + [b] == data + [a, b];
  }

  lemma {:induction false} FeedPadded(data: seq<int>, done: seq<int>)
    requires Bytes(data)
    ensures Feed(Padded(data), Partial(done, 0, 0, 0)) == Success(done + data)
    decreases |data|
  {
    hide Feed, Group;
    if data == [] {
      FeedNothing(done);
      assert done + data == done;
    } else if |data| == 1 {
      FeedOne(data[0], done);
      assert data == [data[0]];
    } else if |data| == 2 {
      FeedTwo(data[0], data[1], done);
      assert data == [data[0], data[1]];
    } else {
      var more := done + [data[0], data[1], data[2]];
      FeedGroup(data[0], data[1], data[2], Padded(data[3..]), done);
      FeedPadded(data[3..], more);
      assert more + data[3..] == done + data;
    }
  }

  lemma FeedNothing(done: seq<int>)
    ensures Feed("", Partial(done, 0, 0, 0)) == Success(done)
  {
  }

  /** Unpadded base64 gives back the bytes it was made from. */
  lemma Base64RoundTrip(data: seq<int>)
    requires Bytes(data)
    ensures UnpaddedDecode(UnpaddedEncode(data)) == Success(data)
  {
    hide Padded, StripPadding, Feed, IsAscii;
    PaddedIsAscii(data);
    StripIsAscii(Padded(data));
    StripThenPad(data);
    FeedPadded(data, []);
    assert [] + data == data;
  }

  /** How many characters of a text carry six bits of data. */
  ghost function SymbolCount(s: string): nat {
    if s == "" then 0 else SymbolCount(s[1..]) + (if Value(s[0]).Some? then 1 else 0)
  }

  /** How many whole bytes `n` symbols make. */
  ghost function ByteCount(n: nat): nat {
    n * 6 / 8
  }

  ghost predicate HasFed(p: Partial, n: nat) {
    p.quad == n % 4 && |p.data| == ByteCount(n)
  }

  /** The first symbol of a group completes no byte, each of the other three one. */
  lemma ByteCountStep(n: nat)
    ensures ByteCount(n + 1) == ByteCount(n) + if n % 4 == 0 then 0 else 1
  {
    assert n == n / 4 * 4 + n % 4;
    var q, r := n / 4, n % 4;
    assert ByteCount(n) == q * 3 + r * 6 / 8;
    assert (n + 1) * 6 == q * 24 + (r + 1) * 6;
  }

  lemma PushCounts(p: Partial, n: nat, v: int)
    requires HasFed(p, n)
    ensures HasFed(Push(p, v), n + 1) && Push(p, v).pads == 0
  {
    ByteCountStep(n);
    hide ByteCount;
    assert (n + 1) % 4 == if n % 4 == 3 then 0 else n % 4 + 1;
  }

  lemma {:induction false} FeedCounts(s: string, rest: string, p: Partial, n: nat) returns (q: Partial)
    requires '=' !in s && HasFed(p, n) && p.pads == 0
    ensures Feed(s + rest, p) == Feed(rest, q) && HasFed(q, n + SymbolCount(s)) && q.pads == 0
    decreases |s|
  {
    hide HasFed, Push, Value;
    if s == "" {
      assert s + rest == rest;
      q := p;
    } else {
      assert (s + rest)[1..] == s[1..] + rest;
      match Value(s[0]) {
        case None => q := FeedCounts(s[1..], rest, p, n);
        case Some(v) =>
          PushCounts(p, n, v);
          q := FeedCounts(s[1..], rest, Push(p, v), n + 1);
      }
    }
  }

  lemma {:induction false} FeedPads(k: nat, p: Partial, n: nat)
    requires HasFed(p, n)
    ensures Feed(Repeat(k), p).Success? <==> p.quad == 0 || (p.quad >= 2 && p.quad + p.pads + k >= 4 && k > 0)
    ensures Feed(Repeat(k), p).Success? ==> |Feed(Repeat(k), p).value| == ByteCount(n)
    decreases k
  {
    hide ByteCount;
    if k > 0 {
      assert Repeat(k)[0] == '=' && Repeat(k)[1..] == Repeat(k - 1);
      if !(p.quad >= 2 && p.quad + p.pads + 1 >= 4) {
        FeedPads(k - 1, p.(pads := if p.quad >= 2 then p.pads + 1 else p.pads), n);
      }
    }
  }

  /**
   Which texts without padding decode, and to how many bytes: foreign ASCII characters
   count for the length that decides the padding but carry no data, and what
   is left of the last group must be completed by the padding.
   */
  lemma DecodesIff(raw: string)
    requires '=' !in raw
    ensures var n, pads := SymbolCount(raw), (4 - |raw| % 4) % 4;
            && (UnpaddedDecode(raw).Success? <==>
                  IsAscii(raw) && (n % 4 == 0 || (n % 4 == 2 && pads >= 2) || (n % 4 == 3 && pads >= 1)))
            && (UnpaddedDecode(raw).Success? ==> |UnpaddedDecode(raw).value| == n * 6 / 8)
  {
    var pads := (4 - |raw| % 4) % 4;
    var q := FeedCounts(raw, Repeat(pads), Partial([], 0, 0, 0), 0);
    FeedPads(pads, q, SymbolCount(raw));
  }

  /** Three vectors of RFC 4648 section 10, and the two symbols that make the alphabet URL-safe. */
  lemma PublishedVectors()
    ensures Padded([102]) == "Zg==" && UnpaddedEncode([102]) == "Zg"
    ensures Padded([102, 111]) == "Zm8=" && UnpaddedEncode([102, 111]) == "Zm8"
    ensures UnpaddedEncode([102, 111, 111]) == "Zm9v"
    ensures UnpaddedEncode([251, 255, 191]) == "-_-_"
  {
    StripOne(102);
    SameStrip(Group(102, 0, 0)[..2], "Zg==");
    StripTwo(102, 111);
    SameStrip(Group(102, 111, 0)[..3], "Zm8=");
    StripNothing("Zm9v");
    StripNothing("-_-_");
  }

  // ---------- the cursor ----------

  /** The printers and parsers the cursor relies on. */
  datatype Library = Library(iso: int -> string, parseIso: string -> Option<int>,
                             show: int -> string, parse: string -> Option<int>,
                             utf8: string -> seq<int>, text: seq<int> -> Option<string>)
  {
    /** Each parser reads back what its printer wrote, and timestamps contain no bar. */
    ghost predicate Faithful() {
      && (forall t :: parseIso(iso(t)) == Some(t) && SEP !in iso(t))
      && (forall id :: parse(show(id)) == Some(id))
      && (forall s :: Bytes(utf8(s)) && text(utf8(s)) == Some(s) && (s != "" ==> utf8(s) != []))
    }
  }

  function Plain(lib: Library, key: Key): string {
    lib.iso(key.createdAt) + [SEP] + lib.show(key.id)
  }

  function EncodeCursor(lib: Library, key: Key): string
    requires lib.Faithful()
  {
    UnpaddedEncode(lib.utf8(Plain(lib, key)))
  }

  /** Text before the first separator and after it. */
  function Partition(s: string): Option<(string, string)> {
    if s == "" then None
    else if s[0] == SEP then Some(("", s[1..]))
    else
      match Partition(s[1..])
      case None => None
      case Some((head, tail)) => Some(([s[0]] + head, tail))
  }

  function DecodeCursor(lib: Library, raw: string): Result<Key, CursorError> {
    if raw == "" then Failure(EmptyCursor)
    else
      match UnpaddedDecode(raw)
      case Failure(_) => Failure(NotBase64)
      case Success(data) =>
        match lib.text(data)
        case None => Failure(NotBase64)
        case Some(decoded) =>
          match Partition(decoded)
          case None => Failure(MissingSeparator)
          case Some((ts, id)) =>
            if lib.parseIso(ts).None? then Failure(InvalidDatetime)
            else if lib.parse(id).None? then Failure(InvalidUuid)
            else Success(Key(lib.parseIso(ts).value, lib.parse(id).value))
  }

  lemma {:induction false} PartitionIsExact(s: string)
    ensures Partition(s).Some? <==> SEP in s
    ensures Partition(s).Some? ==>
              var (head, tail) := Partition(s).value;
              s == head + [SEP] + tail && SEP !in head
  {
    if s != "" && s[0] != SEP {
      PartitionIsExact(s[1..]);
      assert s == [s[0]] + s[1..];
    }
  }

  /** The text a cursor carries, if it carries one. */
  ghost predicate Carries(lib: Library, raw: string, text: string) {
    raw != "" && UnpaddedDecode(raw).Success? && lib.text(UnpaddedDecode(raw).value) == Some(text)
  }

  /** A cursor is read exactly when it carries a time, a bar and an id; each way to fail has its own error. */
  lemma DecodeIsExact(lib: Library, raw: string)
    ensures var r := DecodeCursor(lib, raw);
            && (r == Failure(EmptyCursor) <==> raw == "")
            && (r == Failure(NotBase64) <==> raw != "" && !exists text :: Carries(lib, raw, text))
            && (r == Failure(MissingSeparator) <==> exists text :: Carries(lib, raw, text) && SEP !in text)
            && (forall head, tail :: SEP !in head && Carries(lib, raw, head + [SEP] + tail) ==>
                  && (r == Failure(InvalidDatetime) <==> lib.parseIso(head) == None)
                  && (r == Failure(InvalidUuid) <==> lib.parseIso(head) != None && lib.parse(tail) == None)
                  && (r.Success? <==> lib.parseIso(head) != None && lib.parse(tail) != None)
                  && (r.Success? ==> lib.parseIso(head) == Some(r.value.createdAt) && lib.parse(tail) == Some(r.value.id)))
  {
    hide UnpaddedDecode, Partition;
    forall head, tail | SEP !in head ensures Partition(head + [SEP] + tail) == Some((head, tail)) {
      PartitionAtFirstBar(head, tail);
    }
    if UnpaddedDecode(raw).Success? && lib.text(UnpaddedDecode(raw).value).Some? {
      PartitionIsExact(lib.text(UnpaddedDecode(raw).value).value);
      assert raw != "" ==> Carries(lib, raw, lib.text(UnpaddedDecode(raw).value).value);
    }
  }

  lemma {:induction false} PartitionAtFirstBar(head: string, tail: string)
    requires SEP !in head
    ensures Partition(head + [SEP] + tail) == Some((head, tail))
  {
    var s := head + [SEP] + tail;
    if head == "" {
      assert s[1..] == tail;
    } else {
      PartitionAtFirstBar(head[1..], tail);
      assert s[1..] == head[1..] + [SEP] + tail;
      assert [head[0]] + head[1..] == head;
    }
  }

  /** A cursor decodes to the key it was made from. */
  lemma CursorRoundTrip(lib: Library, key: Key)
    requires lib.Faithful()
    ensures EncodeCursor(lib, key) != "" && DecodeCursor(lib, EncodeCursor(lib, key)) == Success(key)
  {
    hide UnpaddedDecode, UnpaddedEncode, Partition;
    var data := lib.utf8(Plain(lib, key));
    Base64RoundTrip(data);
    PartitionAtFirstBar(lib.iso(key.createdAt), lib.show(key.id));
    if UnpaddedEncode(data) == "" {
      EmptyDecodesToNothing();
    }
  }

  lemma EmptyDecodesToNothing()
    ensures UnpaddedDecode("") == Success([])
  {
  }
}
