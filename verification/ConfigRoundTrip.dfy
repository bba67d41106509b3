/** When reading a printed configuration file gives back the settings it was printed from. */
module ConfigRoundTrips {
  import opened Bytes
  import opened Collections
  import opened ConfigFiles

  // ----- what the description table and the settings look like -----

  predicate ProperName(name: Name) {
    && name != [] && name[0] != HASH
    && forall i :: 0 <= i < |name| ==> name[i] != EQUALS && !IsSpace(name[i])
  }

  /** No comment, or one whose every line starts with a hash. */
  predicate ProperComment(c: seq<Byte>) {
    c != [] ==>
      c[0] == HASH && forall i :: 0 <= i < |c| && c[i] == LF ==> i + 1 < |c| && c[i + 1] == HASH
  }

  predicate ProperTable(table: seq<Entry>) {
    && (forall i :: 0 <= i < |table| ==> ProperName(table[i].name) && ProperComment(table[i].comment))
    && (forall i, j :: 0 <= i < j < |table| ==> table[i].name != table[j].name)
  }

  predicate HasKind(v: Value, kind: Kind) {
    match v
    case Flag(_) => kind == Bool
    case Number(_) => kind == Int
    case Text(_) => kind == String
  }

  predicate Describes(table: seq<Entry>, settings: Settings) {
    forall i :: 0 <= i < |table| ==> table[i].name in settings && HasKind(settings[table[i].name], table[i].kind)
  }

  /** What the reader accepts and gives back unchanged. */
  predicate Restorable(valid: Validator, name: Name, v: Value) {
    match v
    case Flag(_) => true
    case Number(n) => 0 <= n && IntInRange(name, n)
    case Text(bytes) => QUOTE !in bytes && valid(name, bytes)
  }

  predicate AllRestorable(valid: Validator, table: seq<Entry>, settings: Settings)
    requires Describes(table, settings)
  {
    forall i :: 0 <= i < |table| ==> Restorable(valid, table[i].name, settings[table[i].name])
  }

  /** A string whose printed form closes its quote early and then breaks the line. */
  predicate Broken(v: Value) {
    v.Text? && var q := Until(v.bytes, QUOTE); q < |v.bytes| && LF in v.bytes[q + 1..]
  }

  // ----- reading words and numbers -----

  lemma {:induction false} ParsePrinted(n: nat)
    ensures AllDigits(Decimal(n)) && ParseInt(Decimal(n)) == n
  {
    var d := Decimal(n);
    if n < 10 {
      assert d[..0] == [];
    } else {
      ParsePrinted(n / 10);
      assert d[..|d| - 1] == Decimal(n / 10);
    }
  }

  lemma UntilAt(s: seq<Byte>, delim: Byte, i: nat)
    requires i < |s| && s[i] == delim && delim !in s[..i]
    ensures Until(s, delim) == i
  {
    assert forall k :: 0 <= k < i ==> s[..i][k] == s[k];
  }

  lemma GetLineAt(a: seq<Byte>, delim: Byte, b: seq<Byte>)
    requires delim !in a
    ensures GetLine(Stream(a + [delim] + b, false), delim) == Read(a, Stream(b, false))
  {
    var s := a + [delim] + b;
    assert s[..|a|] == a && s[|a| + 1..] == b;
    UntilAt(s, delim, |a|);
  }

  lemma WordAt(w: seq<Byte>, tail: seq<Byte>)
    requires w != [] && forall k :: 0 <= k < |w| ==> !IsSpace(w[k])
    ensures Word(Stream(w + [LF] + tail, false)) == Read(w, Stream([LF] + tail, false))
  {
    var s := w + [LF] + tail;
    assert s[0] == w[0] && s[|w|] == LF;
    assert forall k :: 0 <= k < |w| ==> s[k] == w[k];
    assert UntilSpace(s) == |w|;
    assert s[..|w|] == w && s[|w|..] == [LF] + tail;
  }

  lemma {:induction false} TrimName(name: Name)
    requires ProperName(name)
    ensures Trimmed(name + [SPACE]) == name
  {
    var s := name + [SPACE];
    assert s[..|s| - 1] == name;
    assert !IsSpace(name[|name| - 1]);
    assert TrimRight(s) == TrimRight(name) == name;
  }

  lemma {:induction false} LookupFinds(table: seq<Entry>, i: nat)
    requires i < |table| && forall j, k :: 0 <= j < k < |table| ==> table[j].name != table[k].name
    ensures Lookup(table, table[i].name) == [table[i]]
  {
    if i > 0 {
      LookupFinds(table[1..], i - 1);
    }
  }

  // ----- reading one printed setting -----

  /** What reading a printed value does to the settings. */
  function Assigned(valid: Validator, p: Progress, name: Name, v: Value): Progress {
    match v
    case Flag(_) => Stored(p, name, v)
    case Number(n) =>
      if n < 0 then Warned(p, InvalidInt(name))
      else if IntInRange(name, n) then Stored(p, name, v)
      else Warned(p, Rejected(name))
    case Text(bytes) => StoreString(valid, p, name, bytes[..Until(bytes, QUOTE)])
  }

  /** What remains of the text behind a closing quote once its line has been dropped. */
  function NextLines(after: seq<Byte>): seq<Byte> {
    if LF in after then after[Until(after, LF) + 1..] + [QUOTE, LF] else []
  }

  /** What a string leaves on the following lines if it holds a quote. */
  function Remains(b: seq<Byte>): seq<Byte> {
    if Until(b, QUOTE) < |b| then NextLines(b[Until(b, QUOTE) + 1..]) else []
  }

  /** What a broken value leaves on the following lines. */
  function Junk(v: Value): seq<Byte> {
    if v.Text? then Remains(v.bytes) else []
  }

  lemma LoadFlag(valid: Validator, e: Entry, p: Progress, v: Value, tail: seq<Byte>)
    requires e.kind == Bool && v.Flag?
    ensures var r := LoadValue(valid, e, p, Stream([SPACE] + (Shown(v) + [LF] + tail), false));
      r.progress == Assigned(valid, p, e.name, v) && Ignore(r.stream) == Stream(tail, false)
  {
    LeadingSpace(Shown(v) + [LF] + tail);
    WordAt(Shown(v), tail);
    LineEnd(tail);
  }

  lemma LeadingSpace(s: seq<Byte>)
    ensures SkipSpace(Stream([SPACE] + s, false)) == SkipSpace(Stream(s, false))
  {
    assert ([SPACE] + s)[1..] == s;
  }

  lemma LoadNumber(valid: Validator, e: Entry, p: Progress, v: Value, tail: seq<Byte>)
    requires e.kind == Int && v.Number?
    ensures var r := LoadValue(valid, e, p, Stream([SPACE] + (Shown(v) + [LF] + tail), false));
      r.progress == Assigned(valid, p, e.name, v) && Ignore(r.stream) == Stream(tail, false)
  {
    LeadingSpace(Shown(v) + [LF] + tail);
    if v.n < 0 {
      assert Shown(v)[0] == MINUS;
    } else {
      ParsePrinted(v.n);
    }
    WordAt(Shown(v), tail);
    LineEnd(tail);
  }

  /** Splits a string at its first `delim`. */
  lemma SplitAt(s: seq<Byte>, delim: Byte, tail: seq<Byte>)
    requires delim in s
    ensures var i := Until(s, delim);
      i < |s| && delim !in s[..i] && s + tail == s[..i] + [delim] + (s[i + 1..] + tail)
  {
    var i := Until(s, delim);
    assert s == s[..i] + [delim] + s[i + 1..];
    Regroup(s[..i] + [delim], s[i + 1..], tail);
  }

  lemma GetLineSplits(s: seq<Byte>, delim: Byte, tail: seq<Byte>)
    requires delim in s
    ensures var i := Until(s, delim);
      i < |s| && GetLine(Stream(s + tail, false), delim) == Read(s[..i], Stream(s[i + 1..] + tail, false))
  {
    SplitAt(s, delim, tail);
    var i := Until(s, delim);
    GetLineAt(s[..i], delim, s[i + 1..] + tail);
  }

  /** Reading a string from behind its opening quote: up to the first quote. */
  lemma Quoted(b: seq<Byte>, tail: seq<Byte>)
    ensures var r := GetLine(Stream(b + ([QUOTE, LF] + tail), false), QUOTE);
      r.text == b[..Until(b, QUOTE)] && Ignore(r.after) == Stream(Remains(b) + tail, false)
  {
    if QUOTE in b { EarlyQuote(b, tail); } else { Unquoted(b, tail); }
  }

  lemma EarlyQuote(b: seq<Byte>, tail: seq<Byte>)
    requires QUOTE in b
    ensures var r := GetLine(Stream(b + ([QUOTE, LF] + tail), false), QUOTE);
      r.text == b[..Until(b, QUOTE)] && Ignore(r.after) == Stream(Remains(b) + tail, false)
  {
    GetLineSplits(b, QUOTE, [QUOTE, LF] + tail);
    AfterQuote(b[Until(b, QUOTE) + 1..], tail);
  }

  lemma Unquoted(b: seq<Byte>, tail: seq<Byte>)
    requires QUOTE !in b
    ensures var r := GetLine(Stream(b + ([QUOTE, LF] + tail), false), QUOTE);
      r.text == b[..Until(b, QUOTE)] && Ignore(r.after) == Stream(Remains(b) + tail, false)
  {
    assert Until(b, QUOTE) == |b| && b[..|b|] == b;
    Regroup(b, [QUOTE], [LF] + tail);
    assert [QUOTE] + ([LF] + tail) == [QUOTE, LF] + tail;
    GetLineAt(b, QUOTE, [LF] + tail);
    LineEnd(tail);
  }

  lemma TextStart(b: seq<Byte>, tail: seq<Byte>)
    ensures var s := Shown(Text(b)) + [LF] + tail;
      s[0] == QUOTE && s[1..] == b + ([QUOTE, LF] + tail)
  {
  }

  lemma LoadText(valid: Validator, e: Entry, p: Progress, v: Value, tail: seq<Byte>)
    requires e.kind == String && v.Text?
    ensures var r := LoadValue(valid, e, p, Stream([SPACE] + (Shown(v) + [LF] + tail), false));
      r.progress == Assigned(valid, p, e.name, v) && Ignore(r.stream) == Stream(Junk(v) + tail, false)
  {
    TextStart(v.bytes, tail);
    LeadingSpace(Shown(v) + [LF] + tail);
    Quoted(v.bytes, tail);
  }

  lemma LineEnd(tail: seq<Byte>)
    ensures Ignore(Stream([LF] + tail, false)) == Stream(tail, false) == Stream([] + tail, false)
  {
    assert [] + [LF] + tail == [LF] + tail && [] + tail == tail;
    GetLineAt([], LF, tail);
  }

  /** The reader drops what follows the closing quote, up to the end of the line. */
  lemma AfterQuote(after: seq<Byte>, tail: seq<Byte>)
    ensures Ignore(Stream(after + ([QUOTE, LF] + tail), false))
      == Stream(NextLines(after) + tail, false)
  {
    if LF in after {
      GetLineSplits(after, LF, [QUOTE, LF] + tail);
      Regroup(after[Until(after, LF) + 1..], [QUOTE, LF], tail);
    } else {
      assert after + ([QUOTE, LF] + tail) == (after + [QUOTE]) + [LF] + tail;
      GetLineAt(after + [QUOTE], LF, tail);
      assert [] + tail == tail;
    }
  }

  lemma LoadPrinted(valid: Validator, e: Entry, p: Progress, v: Value, tail: seq<Byte>)
    requires HasKind(v, e.kind)
    ensures var r := LoadValue(valid, e, p, Stream([SPACE] + (Shown(v) + [LF] + tail), false));
      r.progress == Assigned(valid, p, e.name, v) && Ignore(r.stream) == Stream(Junk(v) + tail, false)
  {
    match v
    case Flag(_) => LoadFlag(valid, e, p, v, tail); assert [] + tail == tail;
    case Number(_) => LoadNumber(valid, e, p, v, tail); assert [] + tail == tail;
    case Text(_) => LoadText(valid, e, p, v, tail);
  }

  /** A line that starts with the name of a setting gives that setting a value. */
  lemma LoadNamed(table: seq<Entry>, valid: Validator, p: Progress, i: nat, value: seq<Byte>)
    requires ProperTable(table) && i < |table|
    ensures var r := LoadValue(valid, table[i], p, Stream(value, false));
      LoadLine(table, valid, p, Stream((table[i].name + [SPACE]) + [EQUALS] + value, false))
      == Position(r.progress, Ignore(r.stream))
  {
    var name := table[i].name;
    assert ((name + [SPACE]) + [EQUALS] + value)[0] == name[0];
    GetLineAt(name + [SPACE], EQUALS, value);
    TrimName(name);
    LookupFinds(table, i);
  }

  lemma LoadAssignment(table: seq<Entry>, valid: Validator, p: Progress, i: nat, v: Value, tail: seq<Byte>)
    requires ProperTable(table) && i < |table| && HasKind(v, table[i].kind)
    ensures LoadLine(table, valid, p, Stream(Assignment(table[i].name, v) + tail, false))
      == Position(Assigned(valid, p, table[i].name, v), Stream(Junk(v) + tail, false))
  {
    var e := table[i];
    var value := [SPACE] + (Shown(v) + [LF] + tail);
    assert Assignment(e.name, v) + tail == (e.name + [SPACE]) + [EQUALS] + value;
    LoadNamed(table, valid, p, i, value);
    LoadPrinted(valid, e, p, v, tail);
  }

  // ----- reading one line of a hand-written file -----

  predicate IsWord(word: seq<Byte>) {
    word != [] && forall k :: 0 <= k < |word| ==> !IsSpace(word[k])
  }

  /** A line that gives a setting a value. */
  function Line(name: Name, word: seq<Byte>): seq<Byte> {
    name + Ascii(" = ") + word + Ascii("\n")
  }

  lemma LineParts(name: Name, word: seq<Byte>, tail: seq<Byte>)
    ensures Line(name, word) + tail == (name + [SPACE]) + [EQUALS] + ([SPACE] + (word + [LF] + tail))
  {
    assert Ascii(" = ") == [SPACE, EQUALS, SPACE] && Ascii("\n") == [LF];
  }

  lemma LoadWord(table: seq<Entry>, valid: Validator, p: Progress, i: nat, word: seq<Byte>, tail: seq<Byte>)
    requires ProperTable(table) && i < |table| && IsWord(word) && table[i].kind != String
    ensures LoadLine(table, valid, p, Stream(Line(table[i].name, word) + tail, false))
      == Position(if table[i].kind == Bool then StoreBool(p, table[i].name, word) else StoreInt(p, table[i].name, word),
                  Stream(tail, false))
  {
    var e := table[i];
    LineParts(e.name, word, tail);
    LoadNamed(table, valid, p, i, [SPACE] + (word + [LF] + tail));
    LeadingSpace(word + [LF] + tail);
    WordAt(word, tail);
    LineEnd(tail);
  }

  predicate SaysOn(word: seq<Byte>) {
    word == Ascii("True") || word == Ascii("true")
  }

  predicate SaysOff(word: seq<Byte>) {
    word == Ascii("False") || word == Ascii("false")
  }

  lemma FlagStored(p: Progress, name: Name, word: seq<Byte>)
    ensures StoreBool(p, name, word) ==
      if SaysOn(word) then p.(settings := p.settings[name := Flag(true)])
      else if SaysOff(word) then p.(settings := p.settings[name := Flag(false)])
      else p.(warnings := p.warnings + [InvalidBool(name)])
  {
    assert Ascii("True") == UPPER_TRUE && Ascii("true") == LOWER_TRUE;
    assert Ascii("False") == UPPER_FALSE && Ascii("false") == LOWER_FALSE;
  }

  /** A flag is turned on by `True` and `true`, off by `False` and `false`; any other word only gives a warning. */
  lemma FlagWords(table: seq<Entry>, valid: Validator, p: Progress, i: nat, word: seq<Byte>, tail: seq<Byte>)
    requires ProperTable(table) && i < |table| && IsWord(word) && table[i].kind == Bool
    ensures var r := LoadLine(table, valid, p, Stream(Line(table[i].name, word) + tail, false));
      r.stream == Stream(tail, false) && r.progress ==
        if SaysOn(word) then p.(settings := p.settings[table[i].name := Flag(true)])
        else if SaysOff(word) then p.(settings := p.settings[table[i].name := Flag(false)])
        else p.(warnings := p.warnings + [InvalidBool(table[i].name)])
  {
    LoadWord(table, valid, p, i, word, tail);
    FlagStored(p, table[i].name, word);
  }

  /** Every number below 2^31, and for the update time only those from 100 milliseconds to a day. */
  predicate Allowed(name: Name, n: nat) {
    n < 0x8000_0000 && (name == Ascii("update_ms") ==> 100 <= n <= 24 * 60 * 60 * 1000)
  }

  lemma NumberStored(p: Progress, name: Name, n: nat)
    ensures StoreInt(p, name, Decimal(n)) ==
      if Allowed(name, n) then p.(settings := p.settings[name := Number(n)])
      else p.(warnings := p.warnings + [Rejected(name)])
  {
    ParsePrinted(n);
    assert Ascii("update_ms") == UPDATE_MS;
  }

  /** A number is taken if it is allowed; otherwise the setting stays and a warning is given. */
  lemma NumberWords(table: seq<Entry>, valid: Validator, p: Progress, i: nat, n: nat, tail: seq<Byte>)
    requires ProperTable(table) && i < |table| && table[i].kind == Int
    ensures var r := LoadLine(table, valid, p, Stream(Line(table[i].name, Decimal(n)) + tail, false));
      r.stream == Stream(tail, false) && r.progress ==
        if Allowed(table[i].name, n) then p.(settings := p.settings[table[i].name := Number(n)])
        else p.(warnings := p.warnings + [Rejected(table[i].name)])
  {
    assert IsWord(Decimal(n));
    LoadWord(table, valid, p, i, Decimal(n), tail);
    NumberStored(p, table[i].name, n);
  }

  /** A word that is not made of digits only is no number, so a negative number is none. */
  lemma NotANumber(table: seq<Entry>, valid: Validator, p: Progress, i: nat, word: seq<Byte>, k: nat, tail: seq<Byte>)
    requires ProperTable(table) && i < |table| && IsWord(word) && table[i].kind == Int
    requires k < |word| && (word[k] < 48 || word[k] > 57)
    ensures var r := LoadLine(table, valid, p, Stream(Line(table[i].name, word) + tail, false));
      r.stream == Stream(tail, false) && r.progress == p.(warnings := p.warnings + [InvalidInt(table[i].name)])
  {
    LoadWord(table, valid, p, i, word, tail);
  }

  /** A string without quotes is the word up to the next space, if its setting accepts it. */
  lemma BareText(table: seq<Entry>, valid: Validator, p: Progress, i: nat, word: seq<Byte>, tail: seq<Byte>)
    requires ProperTable(table) && i < |table| && table[i].kind == String && IsWord(word) && word[0] != QUOTE
    ensures var r := LoadLine(table, valid, p, Stream(Line(table[i].name, word) + tail, false));
      r.stream == Stream(tail, false) && r.progress ==
        if valid(table[i].name, word) then p.(settings := p.settings[table[i].name := Text(word)])
        else p.(warnings := p.warnings + [Rejected(table[i].name)])
  {
    var e := table[i];
    LineParts(e.name, word, tail);
    LoadNamed(table, valid, p, i, [SPACE] + (word + [LF] + tail));
    BareValue(valid, e, p, word, tail);
  }

  lemma BareValue(valid: Validator, e: Entry, p: Progress, word: seq<Byte>, tail: seq<Byte>)
    requires e.kind == String && IsWord(word) && word[0] != QUOTE
    ensures var r := LoadValue(valid, e, p, Stream([SPACE] + (word + [LF] + tail), false));
      r.progress == StoreString(valid, p, e.name, word) && Ignore(r.stream) == Stream(tail, false)
  {
    LeadingSpace(word + [LF] + tail);
    WordAt(word, tail);
    LineEnd(tail);
  }

  /** A string between quotes is what stands between them, spaces and line breaks included. */
  lemma QuotedText(table: seq<Entry>, valid: Validator, p: Progress, i: nat, b: seq<Byte>, tail: seq<Byte>)
    requires ProperTable(table) && i < |table| && table[i].kind == String && QUOTE !in b
    ensures var r := LoadLine(table, valid, p, Stream(Line(table[i].name, [QUOTE] + b + [QUOTE]) + tail, false));
      r.stream == Stream(tail, false) && r.progress ==
        if valid(table[i].name, b) then p.(settings := p.settings[table[i].name := Text(b)])
        else p.(warnings := p.warnings + [Rejected(table[i].name)])
  {
    var name := table[i].name;
    LineParts(name, Shown(Text(b)), tail);
    assert Line(name, [QUOTE] + b + [QUOTE]) == Assignment(name, Text(b)) by {
      assert Ascii(" = ") == [SPACE, EQUALS, SPACE] && Ascii("\n") == [LF];
    }
    LoadAssignment(table, valid, p, i, Text(b), tail);
    assert Until(b, QUOTE) == |b| && b[..|b|] == b && [] + tail == tail;
  }

  // ----- reading the whole file -----

  lemma SameAfterSpace(table: seq<Entry>, valid: Validator, p: Progress, s: Stream, t: Stream)
    requires !s.eof && !t.eof && SkipSpace(s) == SkipSpace(t)
    ensures LoadLines(table, valid, p, s) == LoadLines(table, valid, p, t)
  {
  }

  lemma {:induction false} SkipComment(table: seq<Entry>, valid: Validator, p: Progress, c: seq<Byte>, tail: seq<Byte>)
    requires c != [] && ProperComment(c)
    ensures LoadLines(table, valid, p, Stream(c + [LF] + tail, false))
         == LoadLines(table, valid, p, Stream(tail, false))
    decreases |c|
  {
    var s := c + [LF] + tail;
    assert s[0] == HASH;
    var k := Until(c, LF);
    if k == |c| {
      GetLineAt(c, LF, tail);
    } else {
      var d := c[k + 1..];
      assert c == c[..k] + [LF] + d;
      assert s == c[..k] + [LF] + (d + [LF] + tail);
      GetLineAt(c[..k], LF, d + [LF] + tail);
      assert forall i :: 0 <= i < |d| ==> d[i] == c[k + 1 + i];
      SkipComment(table, valid, p, d, tail);
    }
  }

  lemma EntryStart(e: Entry, v: Value, tail: seq<Byte>)
    ensures var body := CommentText(e) + (Assignment(e.name, v) + tail);
      EntryText(e, v) + tail == [LF] + body && ([LF] + body)[1..] == body
  {
    Regroup(CommentText(e), Assignment(e.name, v), tail);
    Regroup([LF], CommentText(e) + Assignment(e.name, v), tail);
  }

  lemma LoadEntry(table: seq<Entry>, valid: Validator, p: Progress, i: nat, v: Value, tail: seq<Byte>)
    requires ProperTable(table) && i < |table| && HasKind(v, table[i].kind)
    ensures LoadLines(table, valid, p, Stream(EntryText(table[i], v) + tail, false))
      == LoadLines(table, valid, Assigned(valid, p, table[i].name, v), Stream(Junk(v) + tail, false))
  {
    var e := table[i];
    var line := Assignment(e.name, v) + tail;
    LoadAssignment(table, valid, p, i, v, tail);
    var body := CommentText(e) + line;
    EntryStart(e, v, tail);
    SameAfterSpace(table, valid, p, Stream([LF] + body, false), Stream(body, false));
    if e.comment == [] {
      assert body == line;
    } else {
      SkipComment(table, valid, p, e.comment, line);
    }
  }

  lemma {:induction false} WarningsStay(table: seq<Entry>, valid: Validator, p: Progress, s: Stream)
    ensures p.warnings <= LoadLines(table, valid, p, s).warnings
    decreases s.Left()
  {
    if !s.eof {
      var r := LoadLine(table, valid, p, s);
      WarningsStay(table, valid, r.progress, r.stream);
    }
  }

  /** No string read from a file holds both a quote and a line break. */
  lemma ValueNeverBreaks(valid: Validator, e: Entry, p: Progress, s: Stream, name: Name, v: Value)
    requires Broken(v) && name in p.settings && p.settings[name] != v
    ensures var r := LoadValue(valid, e, p, s).progress; name in r.settings && r.settings[name] != v
  {
    assert QUOTE in v.bytes && LF in v.bytes;
  }

  lemma LineNeverBreaks(table: seq<Entry>, valid: Validator, p: Progress, s: Stream, name: Name, v: Value)
    requires !s.eof && Broken(v) && name in p.settings && p.settings[name] != v
    ensures var r := LoadLine(table, valid, p, s).progress; name in r.settings && r.settings[name] != v
  {
    var line := GetLine(SkipSpace(s), EQUALS);
    var found := Lookup(table, Trimmed(line.text));
    if found != [] {
      ValueNeverBreaks(valid, found[0], p, line.after, name, v);
    }
  }

  lemma {:induction false} NeverBreaks(
    table: seq<Entry>, valid: Validator, p: Progress, s: Stream, name: Name, v: Value)
    requires Broken(v) && name in p.settings && p.settings[name] != v
    ensures var r := LoadLines(table, valid, p, s); name in r.settings && r.settings[name] != v
    decreases s.Left()
  {
    if !s.eof {
      LineNeverBreaks(table, valid, p, s, name, v);
      var r := LoadLine(table, valid, p, s);
      NeverBreaks(table, valid, r.progress, r.stream, name, v);
    }
  }

  /** Reading the settings from the `k`-th on, each on its own lines. */
  function AssignedFrom(table: seq<Entry>, valid: Validator, p: Progress, settings: Settings, k: nat): Progress
    requires k <= |table| && Describes(table, settings)
    decreases |table| - k
  {
    if k == |table| then p
    else AssignedFrom(table, valid, Assigned(valid, p, table[k].name, settings[table[k].name]), settings, k + 1)
  }

  function TextFrom(table: seq<Entry>, settings: Settings, k: nat): seq<Byte>
    requires k <= |table| && Describes(table, settings)
  {
    EntriesText(table[k..], settings)
  }

  lemma TextStep(table: seq<Entry>, settings: Settings, k: nat)
    requires k < |table| && Describes(table, settings)
    ensures TextFrom(table, settings, k) == EntryText(table[k], settings[table[k].name]) + TextFrom(table,
      settings, k + 1)
  {
    assert table[k..][1..] == table[k + 1..];
  }

  lemma EndOfFile(table: seq<Entry>, valid: Validator, p: Progress)
    requires ProperTable(table)
    ensures LoadLines(table, valid, p, Stream([], false)) == p
  {
    assert Lookup(table, []) == [];
  }

  lemma InStepOnce(table: seq<Entry>, valid: Validator, p: Progress, settings: Settings, k: nat)
    requires ProperTable(table) && Describes(table, settings) && k < |table|
    requires !Broken(settings[table[k].name])
    ensures LoadLines(table, valid, p, Stream(TextFrom(table, settings, k), false))
      == LoadLines(table, valid, Assigned(valid, p, table[k].name, settings[table[k].name]),
                   Stream(TextFrom(table, settings, k + 1), false))
  {
    var v, tail := settings[table[k].name], TextFrom(table, settings, k + 1);
    TextStep(table, settings, k);
    LoadEntry(table, valid, p, k, v, tail);
    assert Junk(v) + tail == tail;
  }

  /** As long as no string is broken, every setting is read from its own line. */
  lemma {:induction false} InStep(table: seq<Entry>, valid: Validator, p: Progress, settings: Settings, k: nat)
    requires ProperTable(table) && Describes(table, settings) && k <= |table|
    requires forall i :: k <= i < |table| ==> !Broken(settings[table[i].name])
    ensures LoadLines(table, valid, p, Stream(TextFrom(table, settings, k), false))
      == AssignedFrom(table, valid, p, settings, k)
    decreases |table| - k
  {
    if k == |table| {
      EndOfFile(table, valid, p);
    } else {
      InStepOnce(table, valid, p, settings, k);
      InStep(table, valid, Assigned(valid, p, table[k].name, settings[table[k].name]), settings, k + 1);
    }
  }

  /** Whether the read settings differ from the printed ones, or a warning was given. */
  predicate Spoilt(table: seq<Entry>, settings: Settings, r: Progress)
    requires Describes(table, settings)
  {
    || r.warnings != []
    || exists i :: 0 <= i < |table| &&
         (table[i].name !in r.settings || r.settings[table[i].name] != settings[table[i].name])
  }

  lemma BrokenHere(table: seq<Entry>, valid: Validator, p: Progress, settings: Settings, k: nat)
    requires ProperTable(table) && Describes(table, settings) && k < |table| && Broken(settings[table[k].name])
    ensures Spoilt(table, settings, LoadLines(table, valid, p, Stream(TextFrom(table, settings, k), false)))
  {
    var name, tail := table[k].name, TextFrom(table, settings, k + 1);
    var v := settings[name];
    TextStep(table, settings, k);
    LoadEntry(table, valid, p, k, v, tail);
    var next, s := Assigned(valid, p, name, v), Stream(Junk(v) + tail, false);
    if next.warnings != p.warnings {
      WarningsStay(table, valid, next, s);
    } else {
      NeverBreaks(table, valid, next, s, name, v);
    }
  }

  /** A broken string is not read back, whatever its remains make of the rest of the file. */
  lemma {:induction false} BrokenSpoils(table: seq<Entry>, valid: Validator, p: Progress, settings: Settings,
                                        k: nat, b: nat)
    requires ProperTable(table) && Describes(table, settings)
    requires k <= b < |table| && Broken(settings[table[b].name])
    ensures Spoilt(table, settings, LoadLines(table, valid, p, Stream(TextFrom(table, settings, k), false)))
    decreases |table| - k
  {
    var v := settings[table[k].name];
    if Broken(v) {
      BrokenHere(table, valid, p, settings, k);
    } else {
      InStepOnce(table, valid, p, settings, k);
      BrokenSpoils(table, valid, Assigned(valid, p, table[k].name, v), settings, k + 1, b);
    }
  }

  lemma {:induction false} AssignedKeeps(table: seq<Entry>, valid: Validator, p: Progress, settings: Settings,
                                         k: nat, name: Name)
    requires k <= |table| && Describes(table, settings) && forall i :: k <= i < |table| ==> table[i].name != name
    ensures var r := AssignedFrom(table, valid, p, settings, k);
      && p.warnings <= r.warnings && (name in r.settings <==> name in p.settings)
      && (name in p.settings ==> r.settings[name] == p.settings[name])
    decreases |table| - k
  {
    if k < |table| {
      AssignedKeeps(table, valid, Assigned(valid, p, table[k].name, settings[table[k].name]), settings, k + 1, name);
    }
  }

  /** A setting is read back without a warning exactly when it is restorable. */
  lemma AssignedIff(valid: Validator, p: Progress, name: Name, v: Value)
    ensures var r := Assigned(valid, p, name, v);
      (r.warnings == p.warnings && name in r.settings && r.settings[name] == v) <==> Restorable(valid, name, v)
  {
    if v.Text? {
      var b := v.bytes;
      var q := Until(b, QUOTE);
      if QUOTE !in b { assert b[..q] == b; }
    }
  }

  lemma {:induction false} AssignedRestores(
    table: seq<Entry>, valid: Validator, p: Progress, settings: Settings, k: nat)
    requires ProperTable(table) && Describes(table, settings) && k <= |table|
    requires AllRestorable(valid, table, settings)
    ensures var r := AssignedFrom(table, valid, p, settings, k);
      && r.warnings == p.warnings
      && forall i :: k <= i < |table| ==>
           table[i].name in r.settings && r.settings[table[i].name] == settings[table[i].name]
    decreases |table| - k
  {
    if k < |table| {
      var name := table[k].name;
      var next := Assigned(valid, p, name, settings[name]);
      AssignedIff(valid, p, name, settings[name]);
      AssignedRestores(table, valid, next, settings, k + 1);
      AssignedKeeps(table, valid, next, settings, k + 1, name);
    }
  }

  lemma {:induction false} AssignedSpoils(table: seq<Entry>, valid: Validator, p: Progress, settings: Settings,
                                          k: nat, b: nat)
    requires ProperTable(table) && Describes(table, settings) && k <= b < |table|
    requires !Restorable(valid, table[b].name, settings[table[b].name])
    ensures Spoilt(table, settings, AssignedFrom(table, valid, p, settings, k))
    decreases |table| - k
  {
    var name := table[k].name;
    var next := Assigned(valid, p, name, settings[name]);
    if k < b {
      AssignedSpoils(table, valid, next, settings, k + 1, b);
    } else {
      AssignedIff(valid, p, name, settings[name]);
      AssignedKeeps(table, valid, next, settings, k + 1, name);
    }
  }

  lemma TitleSkipped(version: seq<Byte>, table: seq<Entry>, settings: Settings)
    requires LF !in version && Describes(table, settings)
    ensures Open(version, FileText(version, table, settings)) == Opening(true, Stream(EntriesText(table,
      settings), false))
  {
    var body := EntriesText(table, settings);
    var title := TITLE + version;
    assert FileText(version, table, settings) == title + [LF] + body;
    assert (title + [LF] + body)[0] == HASH;
    GetLineAt(title, LF, body);
    ContainsSuffix(TITLE, version);
  }

  lemma {:induction false} ContainsSuffix(s: seq<Byte>, part: seq<Byte>)
    ensures Contains(s + part, part)
  {
    if s == [] {
      assert s + part == part;
    } else {
      assert (s + part)[1..] == s[1..] + part;
      ContainsSuffix(s[1..], part);
    }
  }

  /** Reading the printed assignments, when no string is broken. */
  lemma InStepIff(table: seq<Entry>, valid: Validator, base: Settings, settings: Settings)
    requires ProperTable(table) && Describes(table, settings)
    ensures !Spoilt(table, settings, AssignedFrom(table, valid, Progress(base, []), settings, 0))
       <==> AllRestorable(valid, table, settings)
  {
    var p := Progress(base, []);
    if AllRestorable(valid, table, settings) {
      AssignedRestores(table, valid, p, settings, 0);
    } else {
      var b :| 0 <= b < |table| && !Restorable(valid, table[b].name, settings[table[b].name]);
      AssignedSpoils(table, valid, p, settings, 0, b);
    }
  }

  /**
   Reading the file printed from `settings` over any settings `base` gives every described setting back,
   without a warning, exactly when no string holds a quote, no number is negative, and all pass their checks.
   */
  lemma RestoredIff(table: seq<Entry>, valid: Validator, version: seq<Byte>, base: Settings, settings: Settings)
    requires ProperTable(table) && Describes(table, settings) && LF !in version
    ensures !Spoilt(table, settings, LoadFile(table, valid, version, base, FileText(version, table, settings)))
      <==> AllRestorable(valid, table, settings)
  {
    TitleSkipped(version, table, settings);
    var p := Progress(base, []);
    assert table[0..] == table;
    if b :| 0 <= b < |table| && Broken(settings[table[b].name]) {
      BrokenSpoils(table, valid, p, settings, 0, b);
      assert !Restorable(valid, table[b].name, settings[table[b].name]);
    } else {
      InStep(table, valid, p, settings, 0);
      InStepIff(table, valid, base, settings);
    }
  }

  /** Reading a restorable file changes no other setting and does not ask for the file to be written again. */
  lemma OthersStay(table: seq<Entry>, valid: Validator, version: seq<Byte>, base: Settings, settings: Settings,
                   name: Name)
    requires ProperTable(table) && Describes(table, settings) && LF !in version
    requires AllRestorable(valid, table, settings) && forall i :: 0 <= i < |table| ==> table[i].name != name
    ensures Open(version, FileText(version, table, settings)).current
    ensures var r := LoadFile(table, valid, version, base, FileText(version, table, settings)).settings;
      (name in r <==> name in base) && (name in base ==> r[name] == base[name])
  {
    TitleSkipped(version, table, settings);
    assert table[0..] == table;
    InStep(table, valid, Progress(base, []), settings, 0);
    AssignedKeeps(table, valid, Progress(base, []), settings, 0, name);
  }
}
