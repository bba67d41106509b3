/** The configuration file: printing the settings and reading them back, byte by byte. */
module ConfigFiles {
  import opened Bytes
  import opened Collections

  const SPACE: Byte := 32
  const HASH: Byte := 35
  const QUOTE: Byte := 34
  const EQUALS: Byte := 61
  const MINUS: Byte := 45
  const LOWER_TRUE: seq<Byte> := [116, 114, 117, 101]
  const LOWER_FALSE: seq<Byte> := [102, 97, 108, 115, 101]
  const UPPER_TRUE: seq<Byte> := [84, 114, 117, 101]
  const UPPER_FALSE: seq<Byte> := [70, 97, 108, 115, 101]
  const UPDATE_MS: seq<Byte> := [117, 112, 100, 97, 116, 101, 95, 109, 115]
  const TITLE: seq<Byte> := [HASH, 63, 32, 67, 111, 110, 102, 105, 103, 32, 102, 105, 108, 101, 32, 102, 111, 114, 32,
                             98, 116, 111, 112, 32, 118, 46]
  const INT_MAX := 0x7FFF_FFFF
  const ONE_DAY_MILLIS := 86_400_000

  type Name = seq<Byte>

  datatype Kind = Bool | Int | String

  datatype Value = Flag(on: bool) | Number(n: int) | Text(bytes: seq<Byte>)

  /** A described setting: its name, the array it is stored in, and the comment printed above it. */
  datatype Entry = Entry(name: Name, kind: Kind, comment: seq<Byte>)

  type Settings = map<Name, Value>

  datatype Warning = InvalidBool(name: Name) | InvalidInt(name: Name) | Rejected(name: Name)

  // ----- the input stream -----

  /** What is left to read, and whether reading has run into the end (after which every read does nothing). */
  datatype Stream = Stream(rest: seq<Byte>, eof: bool) {
    function Left(): nat {
      if eof then 0 else |rest| + 1
    }
  }

  predicate IsSpace(b: Byte) {
    b == SPACE || 9 <= b <= 13
  }

  /** Position of the first `delim`, or the length. */
  function Until(s: seq<Byte>, delim: Byte): (i: nat)
    ensures i <= |s| && forall k :: 0 <= k < i ==> s[k] != delim
    ensures i < |s| ==> s[i] == delim
  {
    if s == [] || s[0] == delim then 0 else 1 + Until(s[1..], delim)
  }

  function UntilSpace(s: seq<Byte>): (i: nat)
    ensures i <= |s| && forall k :: 0 <= k < i ==> !IsSpace(s[k])
    ensures i < |s| ==> IsSpace(s[i])
  {
    if s == [] || IsSpace(s[0]) then 0 else 1 + UntilSpace(s[1..])
  }

  function SkipSpace(s: Stream): (r: Stream)
    ensures r.Left() <= s.Left()
    ensures !r.eof ==> r.rest != [] && !IsSpace(r.rest[0])
    decreases |s.rest|
  {
    if s.eof then s
    else if s.rest == [] then s.(eof := true)
    else if IsSpace(s.rest[0]) then SkipSpace(Stream(s.rest[1..], false))
    else s
  }

  datatype Read = Read(text: seq<Byte>, after: Stream)

  function GetLine(s: Stream, delim: Byte): (r: Read)
    ensures !s.eof ==> r.after.Left() < s.Left()
    ensures s.eof ==> r.after == s
    ensures delim !in r.text
  {
    if s.eof then Read([], s)
    else
      var i := Until(s.rest, delim);
      if i == |s.rest| then Read(s.rest, Stream([], true))
      else Read(s.rest[..i], Stream(s.rest[i + 1..], false))
  }

  function Ignore(s: Stream): Stream {
    GetLine(s, LF).after
  }

  function Word(s: Stream): (r: Read)
    ensures r.after.Left() <= s.Left()
    ensures forall k :: 0 <= k < |r.text| ==> !IsSpace(r.text[k])
  {
    var t := SkipSpace(s);
    if t.eof then Read([], t)
    else
      var i := UntilSpace(t.rest);
      Read(t.rest[..i], Stream(t.rest[i..], i == |t.rest|))
  }

  // ----- loading -----

  function TrimLeft(s: seq<Byte>): seq<Byte> {
    if s != [] && s[0] == SPACE then TrimLeft(s[1..]) else s
  }

  function TrimRight(s: seq<Byte>): seq<Byte> {
    if s != [] && s[|s| - 1] == SPACE then TrimRight(s[..|s| - 1]) else s
  }

  function Trimmed(s: seq<Byte>): seq<Byte> {
    if s != [] && s[|s| - 1] == SPACE then TrimLeft(TrimRight(s)) else s
  }

  function Lookup(table: seq<Entry>, name: Name): (r: seq<Entry>)
    ensures |r| <= 1 && (r == [] <==> forall i :: 0 <= i < |table| ==> table[i].name != name)
    ensures r != [] ==> r[0] in table && r[0].name == name
  {
    if table == [] then [] else if table[0].name == name then [table[0]] else Lookup(table[1..], name)
  }

  predicate AllDigits(s: seq<Byte>) {
    forall i :: 0 <= i < |s| ==> IsDigit(s[i])
  }

  function ParseInt(s: seq<Byte>): nat
    requires AllDigits(s)
  {
    if s == [] then 0 else ParseInt(s[..|s| - 1]) * 10 + (s[|s| - 1] - 48)
  }

  predicate IntInRange(name: Name, n: int) {
    n <= INT_MAX && (name == UPDATE_MS ==> 100 <= n <= ONE_DAY_MILLIS)
  }

  /** The settings read so far and the warnings given. */
  datatype Progress = Progress(settings: Settings, warnings: seq<Warning>)

  function Stored(p: Progress, name: Name, v: Value): Progress {
    p.(settings := p.settings[name := v])
  }

  function Warned(p: Progress, w: Warning): Progress {
    p.(warnings := p.warnings + [w])
  }

  function StoreBool(p: Progress, name: Name, value: seq<Byte>): (r: Progress)
    ensures p.warnings <= r.warnings
  {
    if value in [LOWER_TRUE, LOWER_FALSE, UPPER_TRUE, UPPER_FALSE]
    then Stored(p, name, Flag(value == LOWER_TRUE || value == UPPER_TRUE))
    else Warned(p, InvalidBool(name))
  }

  function StoreInt(p: Progress, name: Name, value: seq<Byte>): (r: Progress)
    ensures p.warnings <= r.warnings
  {
    if !AllDigits(value) then Warned(p, InvalidInt(name))
    else if value == [] || !IntInRange(name, ParseInt(value)) then Warned(p, Rejected(name))
    else Stored(p, name, Number(ParseInt(value)))
  }

  /** Whether a string is acceptable as the value of the setting of that name. */
  type Validator = (Name, seq<Byte>) -> bool

  function StoreString(valid: Validator, p: Progress, name: Name, value: seq<Byte>): (r: Progress)
    ensures p.warnings <= r.warnings
  {
    if valid(name, value) then Stored(p, name, Text(value)) else Warned(p, Rejected(name))
  }

  datatype Position = Position(progress: Progress, stream: Stream)

  function LoadValue(valid: Validator, e: Entry, p: Progress, s: Stream): (r: Position)
    ensures r.stream.Left() <= s.Left()
    ensures p.warnings <= r.progress.warnings
  {
    var t := SkipSpace(s);
    match e.kind
    case Bool => var w := Word(t); Position(StoreBool(p, e.name, w.text), w.after)
    case Int => var w := Word(t); Position(StoreInt(p, e.name, w.text), w.after)
    case String =>
      var w :=
        if !t.eof && t.rest[0] == QUOTE then GetLine(Stream(t.rest[1..], false), QUOTE) else Word(t);
      Position(StoreString(valid, p, e.name, w.text), w.after)
  }

  /** One turn of the loading loop. */
  function LoadLine(table: seq<Entry>, valid: Validator, p: Progress, s: Stream): (r: Position)
    requires !s.eof
    ensures r.stream.Left() < s.Left()
    ensures p.warnings <= r.progress.warnings
  {
    var t := SkipSpace(s);
    if !t.eof && t.rest[0] == HASH then Position(p, Ignore(t))
    else
      var line := GetLine(t, EQUALS);
      var found := Lookup(table, Trimmed(line.text));
      if found == [] then Position(p, Ignore(line.after))
      else
        var r := LoadValue(valid, found[0], p, line.after);
        Position(r.progress, Ignore(r.stream))
  }

  function LoadLines(table: seq<Entry>, valid: Validator, p: Progress, s: Stream): Progress
    decreases s.Left()
  {
    if s.eof then p
    else var r := LoadLine(table, valid, p, s); LoadLines(table, valid, r.progress, r.stream)
  }

  predicate Contains(s: seq<Byte>, part: seq<Byte>) {
    part <= s || (s != [] && Contains(s[1..], part))
  }

  /** Where loading starts, and whether the first line is a title naming this version. */
  datatype Opening = Opening(current: bool, stream: Stream)

  function Open(version: seq<Byte>, input: seq<Byte>): Opening {
    if input == [] then Opening(false, Stream([], true))
    else if input[0] != HASH then Opening(false, Stream(input, false))
    else var title := GetLine(Stream(input, false), LF); Opening(Contains(title.text, version), title.after)
  }

  /** Loading a file over the settings `base`. */
  function LoadFile(table: seq<Entry>, valid: Validator, version: seq<Byte>, base: Settings, input: seq<Byte>)
    : Progress
  {
    LoadLines(table, valid, Progress(base, []), Open(version, input).stream)
  }

  // ----- printing -----

  function Shown(v: Value): seq<Byte> {
    match v
    case Flag(on) => if on then LOWER_TRUE else LOWER_FALSE
    case Number(n) => if n < 0 then [MINUS] + Decimal(-n) else Decimal(n)
    case Text(bytes) => [QUOTE] + bytes + [QUOTE]
  }

  function CommentText(e: Entry): seq<Byte> {
    if e.comment == [] then [] else e.comment + [LF]
  }

  function Assignment(name: Name, v: Value): seq<Byte> {
    name + [SPACE, EQUALS, SPACE] + Shown(v) + [LF]
  }

  function EntryText(e: Entry, v: Value): seq<Byte> {
    [LF] + (CommentText(e) + Assignment(e.name, v))
  }

  function EntriesText(table: seq<Entry>, settings: Settings): seq<Byte>
    requires forall i :: 0 <= i < |table| ==> table[i].name in settings
  {
    if table == [] then []
    else EntryText(table[0], settings[table[0].name]) + EntriesText(table[1..], settings)
  }

  lemma EntriesStep(table: seq<Entry>, settings: Settings, i: nat, before: seq<Byte>)
    requires i < |table| && forall i :: 0 <= i < |table| ==> table[i].name in settings
    ensures var text := EntryText(table[i], settings[table[i].name]);
      before + EntriesText(table[i..], settings) == before + text + EntriesText(table[i + 1..], settings)
  {
    assert table[i..][0] == table[i] && table[i..][1..] == table[i + 1..];
    Regroup(before, EntryText(table[i], settings[table[i].name]), EntriesText(table[i + 1..], settings));
  }

  function FileText(version: seq<Byte>, table: seq<Entry>, settings: Settings): seq<Byte>
    requires forall i :: 0 <= i < |table| ==> table[i].name in settings
  {
    TITLE + version + [LF] + EntriesText(table, settings)
  }

  /** The stored settings and the flag that asks for the file to be written again. */
  class Config {
    var settings: Settings
    var writeNew: bool

    constructor (settings: Settings)
      ensures this.settings == settings && !writeNew
    {
      this.settings := settings;
      writeNew := false;
    }

    method Load(table: seq<Entry>, valid: Validator, version: seq<Byte>, input: seq<Byte>)
      returns (warnings: seq<Warning>)
      modifies this
      ensures Progress(settings, warnings) == LoadFile(table, valid, version, old(settings), input)
      ensures writeNew == (old(writeNew) || !Open(version, input).current || warnings != [])
    {
      warnings := [];
      var opening := Open(version, input);
      if !opening.current {
        writeNew := true;
      }
      var s := opening.stream;
      while !s.eof
        invariant LoadLines(table, valid, Progress(settings, warnings), s)
          == LoadFile(table, valid, version, old(settings), input)
        invariant writeNew == (old(writeNew) || !opening.current)
        decreases s.Left()
      {
        var r := LoadLine(table, valid, Progress(settings, warnings), s);
        settings, warnings, s := r.progress.settings, r.progress.warnings, r.stream;
      }
      if warnings != [] {
        writeNew := true;
      }
    }

    /** Appends the lines of one setting. */
    method AppendEntry(buffer: seq<Byte>, e: Entry) returns (r: seq<Byte>)
      requires e.name in settings
      ensures r == buffer + EntryText(e, settings[e.name])
    {
      r := buffer + [LF];
      if e.comment != [] {
        r := r + (e.comment + [LF]);
      }
      r := r + Assignment(e.name, settings[e.name]);
    }

    method CurrentConfig(table: seq<Entry>, version: seq<Byte>) returns (buffer: seq<Byte>)
      requires forall i :: 0 <= i < |table| ==> table[i].name in settings
      ensures buffer == FileText(version, table, settings)
    {
      buffer := TITLE + version + [LF];
      for i := 0 to |table|
        invariant FileText(version, table, settings) == buffer + EntriesText(table[i..], settings)
      {
        EntriesStep(table, settings, i, buffer);
        buffer := AppendEntry(buffer, table[i]);
      }
      assert buffer + [] == buffer;
    }
  }
}
