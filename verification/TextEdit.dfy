/** The editable text field: a byte string with a byte cursor and a character cursor kept in step. */
module TextEditing {
  import opened Bytes
  import opened Utf8

  const LEFT: seq<Byte> := [108, 101, 102, 116]
  const RIGHT: seq<Byte> := [114, 105, 103, 104, 116]
  const HOME: seq<Byte> := [104, 111, 109, 101]
  const END: seq<Byte> := [101, 110, 100]
  const BACKSPACE: seq<Byte> := [98, 97, 99, 107, 115, 112, 97, 99, 101]
  const DELETE: seq<Byte> := [100, 101, 108, 101, 116, 101]
  const SPACE: seq<Byte> := [115, 112, 97, 99, 101]

  predicate IsInt(key: seq<Byte>) {
    forall i :: 0 <= i < |key| ==> IsDigit(key[i])
  }

  // ----- the editor a user has in mind -----

  datatype Editor = Editor(chars: seq<seq<Byte>>, at: nat)

  function Insert(e: Editor, c: seq<Byte>): Editor
    requires e.at <= |e.chars|
  {
    Editor(e.chars[..e.at] + [c] + e.chars[e.at..], e.at + 1)
  }

  /** Continuation bytes become part of the character before the cursor. */
  function Glue(e: Editor, stray: seq<Byte>): Editor
    requires 0 < e.at <= |e.chars|
  {
    e.(chars := e.chars[e.at - 1 := e.chars[e.at - 1] + stray])
  }

  /** A key of one character, behind continuation bytes if it has any in front. */
  function InsertKey(e: Editor, key: seq<Byte>): Editor
    requires e.at <= |e.chars|
  {
    if Stray(key) == 0 || e.at == 0 then Insert(e, key)
    else Insert(Glue(e, key[..Stray(key)]), key[Stray(key)..])
  }

  /** Takes character `i` out and leaves the cursor in its place. */
  function Without(e: Editor, i: nat): Editor
    requires i < |e.chars|
  {
    Editor(e.chars[..i] + e.chars[i + 1..], i)
  }

  /** The effect of a key that is typed. */
  function Type(e: Editor, key: seq<Byte>, numeric: bool, limit: nat): (r: (Editor, bool))
    requires e.at <= |e.chars|
    ensures r.0.at <= |r.0.chars|
  {
    if key == SPACE && !numeric then (Insert(e, [32]), true)
    else if Count(key) == 1 && |Join(e.chars)| < limit && (numeric ==> IsInt(key)) then (InsertKey(e, key), true)
    else (e, false)
  }

  /** The effect of a key on a list of characters, and whether the key was used. */
  function Edit(e: Editor, key: seq<Byte>, numeric: bool, limit: nat): (r: (Editor, bool))
    requires e.at <= |e.chars|
    ensures r.0.at <= |r.0.chars|
  {
    if key == LEFT && e.at > 0 then (e.(at := e.at - 1), true)
    else if key == RIGHT && e.at < |e.chars| then (e.(at := e.at + 1), true)
    else if key == HOME && e.at > 0 then (e.(at := 0), true)
    else if key == END && e.at < |e.chars| then (e.(at := |e.chars|), true)
    else if key == BACKSPACE && e.at > 0 then
      (Without(e, e.at - 1), true)
    else if key == DELETE && e.at < |e.chars| then
      (Without(e, e.at), true)
    else Type(e, key, numeric, limit)
  }

  // ----- the byte buffer -----

  /** Bytes before the cursor. */
  function Offset(e: Editor): nat
    requires e.at <= |e.chars|
  {
    |Join(e.chars[..e.at])|
  }

  /** The text and the two cursors represent the editor `e`. */
  ghost predicate Represents(text: seq<Byte>, pos: nat, upos: nat, e: Editor) {
    && AllChars(e.chars) && e.at <= |e.chars|
    && text == Join(e.chars) && upos == e.at && pos == Offset(e)
  }

  lemma CursorSplitsText(e: Editor)
    requires AllChars(e.chars) && e.at <= |e.chars|
    ensures var text, pos := Join(e.chars), Offset(e);
      && pos <= |text|
      && text[..pos] == Join(e.chars[..e.at]) && text[pos..] == Join(e.chars[e.at..])
      && (e.at > 0 <==> pos > 0) && (e.at < |e.chars| <==> pos < |text|)
      && Count(text) == |e.chars|
  {
    JoinSplit(e.chars, e.at);
    JoinNonEmpty(e.chars[..e.at]);
    JoinNonEmpty(e.chars[e.at..]);
    FirstOfJoin(e.chars, 0);
    if e.at == |e.chars| { assert e.chars[e.at..] == []; }
    if e.at == 0 { assert e.chars[..0] == []; }
  }

  /** The pieces a removal is put together from: the characters before `i` and after `i`. */
  lemma WithoutChar(e: Editor, i: nat)
    requires AllChars(e.chars) && i < |e.chars|
    ensures var text, before, after := Join(e.chars), e.chars[..i], e.chars[i + 1..];
      && Head(text, i) == Join(before) && |Join(before)| <= |text|
      && Tail(text[|Join(before)|..], |after|) == Join(after)
      && Join(before + after) == Join(before) + Join(after)
      && AllChars(before + after) && (before + after)[..i] == before
  {
    var before, kept, after := e.chars[..i], e.chars[i..], e.chars[i + 1..];
    HeadOfJoin(e.chars, i);
    JoinSplit(e.chars, i);
    assert Join(e.chars)[|Join(before)|..] == Join(kept);
    TailOfJoin(kept, |after|);
    assert kept[1..] == after;
    JoinConcat(before, after);
    assert (before + after)[..i] == before;
  }

  lemma HeadFits(e: Editor, i: nat)
    requires AllChars(e.chars) && i < |e.chars|
    ensures |Head(Join(e.chars), i)| <= |Join(e.chars)| && Count(Join(e.chars)) == |e.chars|
  {
    WithoutChar(e, i);
    FirstOfJoin(e.chars, 0);
  }

  /** What backspace puts together: the text without character `i`, and the cursor in its place. */
  lemma RemovalRepresents(e: Editor, i: nat, text: seq<Byte>, first: seq<Byte>, rest: seq<Byte>)
    requires AllChars(e.chars) && i < |e.chars| && text == Join(e.chars)
    requires first == Head(text, i) && |first| <= |text| && rest == Tail(text[|first|..], |e.chars| - i - 1)
    ensures Represents(first + rest, |first|, i, Without(e, i))
  {
    WithoutChar(e, i);
  }

  /** The text with a character put in at the cursor. */
  lemma InsertRepresents(e: Editor, c: seq<Byte>)
    requires AllChars(e.chars) && e.at <= |e.chars| && IsChar(c)
    ensures var text, pos := Join(e.chars), Offset(e);
      && pos <= |text| && Head(text, e.at) == text[..pos]
      && Represents(text[..pos] + c + text[pos..], pos + |c|, e.at + 1, Insert(e, c))
  {
    var before, after := e.chars[..e.at], e.chars[e.at..];
    HeadOfJoin(e.chars, e.at);
    CursorSplitsText(e);
    JoinOne(c);
    JoinConcat(before, [c]);
    JoinConcat(before + [c], after);
    assert Insert(e, c).chars[..e.at + 1] == before + [c];
  }

  lemma GlueRepresents(e: Editor, stray: seq<Byte>)
    requires AllChars(e.chars) && 0 < e.at <= |e.chars| && forall i :: 0 <= i < |stray| ==> !IsLead(stray[i])
    ensures var text, pos := Join(e.chars), Offset(e);
      pos <= |text| && Represents(text[..pos] + stray + text[pos..], pos + |stray|, e.at, Glue(e, stray))
  {
    var k := e.at - 1;
    var front, c, after, g := e.chars[..k], e.chars[k], e.chars[e.at..], Glue(e, stray);
    CursorSplitsText(e);
    JoinConcat(front, [c]);
    JoinConcat(front, [c + stray]);
    JoinOne(c);
    JoinOne(c + stray);
    assert e.chars[..e.at] == front + [c] && g.chars[..e.at] == front + [c + stray] && g.chars[e.at..] == after;
    JoinSplit(g.chars, e.at);
  }

  lemma SplitKey(key: seq<Byte>)
    requires Count(key) == 1
    ensures key == key[..Stray(key)] + key[Stray(key)..] && IsChar(key[Stray(key)..])
  {
    assert key == key[..Stray(key)] + key[Stray(key)..];
    StrayThenChar(key[..Stray(key)], key[Stray(key)..]);
  }

  lemma InsertStrayRepresents(e: Editor, stray: seq<Byte>, c: seq<Byte>, key: seq<Byte>)
    requires AllChars(e.chars) && 0 < e.at <= |e.chars| && IsChar(c) && key == stray + c
    requires forall i :: 0 <= i < |stray| ==> !IsLead(stray[i])
    ensures var text, pos := Join(e.chars), Offset(e);
      pos <= |text| && Represents(text[..pos] + key + text[pos..], pos + |key|, e.at + 1, Insert(Glue(e, stray), c))
  {
    var text, pos, g := Join(e.chars), Offset(e), Glue(e, stray);
    GlueRepresents(e, stray);
    var mid := text[..pos] + stray + text[pos..];
    assert Join(g.chars) == mid && Offset(g) == pos + |stray|;
    InsertRepresents(g, c);
    Reassemble(text, pos, stray, c);
  }

  lemma StrayThenChar(stray: seq<Byte>, c: seq<Byte>)
    requires (forall i :: 0 <= i < |stray| ==> !IsLead(stray[i])) && (c != [] ==> IsLead(c[0]))
    requires Count(stray + c) == 1
    ensures IsChar(c)
  {
    OverContinuation(stray, c, 0);
    OneChar(c);
  }

  /** Putting in two pieces one after the other is putting in both. */
  lemma Reassemble(text: seq<Byte>, pos: nat, a: seq<Byte>, b: seq<Byte>)
    requires pos <= |text|
    ensures var mid, p := text[..pos] + a + text[pos..], pos + |a|;
      mid[..p] + b + mid[p..] == text[..pos] + (a + b) + text[pos..]
  {
    var mid, p := text[..pos] + a + text[pos..], pos + |a|;
    assert mid[..p] == text[..pos] + a && mid[p..] == text[pos..];
  }

  /** The text with a key put in at the cursor. */
  lemma InsertKeyRepresents(e: Editor, key: seq<Byte>)
    requires AllChars(e.chars) && e.at <= |e.chars| && Count(key) == 1 && (IsLead(key[0]) || e.at > 0)
    ensures var text, pos := Join(e.chars), Offset(e);
      && pos <= |text| && Head(text, e.at) == text[..pos]
      && Represents(text[..pos] + key + text[pos..], pos + |key|, e.at + 1, InsertKey(e, key))
  {
    HeadAtCursor(e);
    if Stray(key) == 0 {
      OneChar(key);
      InsertRepresents(e, key);
    } else {
      SplitKey(key);
      InsertStrayRepresents(e, key[..Stray(key)], key[Stray(key)..], key);
    }
  }

  lemma HeadAtCursor(e: Editor)
    requires AllChars(e.chars) && e.at <= |e.chars|
    ensures Offset(e) <= |Join(e.chars)| && Head(Join(e.chars), e.at) == Join(e.chars)[..Offset(e)]
  {
    CursorSplitsText(e);
    HeadOfJoin(e.chars, e.at);
  }

  /** The first `i + 1` characters without the last of them. */
  lemma HeadOfHead(e: Editor, i: nat)
    requires AllChars(e.chars) && i < |e.chars|
    ensures var text := Join(e.chars);
      var first := Head(text, i + 1);
      && Count(first) == i + 1 && Head(first, i) == Join(e.chars[..i])
      && |first| <= |text| && text[|first|..] == Join(e.chars[i + 1..])
  {
    var upto := e.chars[..i + 1];
    HeadOfJoin(e.chars, i + 1);
    HeadOfJoin(upto, i);
    FirstOfJoin(upto, 0);
    JoinSplit(e.chars, i + 1);
    assert upto[..i] == e.chars[..i];
  }

  /** What delete puts together: the first characters without the last of them, and the rest. */
  lemma DeletionRepresents(e: Editor)
    requires AllChars(e.chars) && e.at < |e.chars|
    ensures var text := Join(e.chars);
      var first := Head(text, e.at + 1);
      && |first| <= |text| && Count(first) == e.at + 1
      && Represents(Head(first, e.at) + text[|first|..], Offset(e), e.at, Without(e, e.at))
  {
    WithoutChar(e, e.at);
    HeadOfHead(e, e.at);
  }

  /** What the byte cursor tells about the character cursor. */
  lemma CursorTests(text: seq<Byte>, pos: nat, upos: nat, e: Editor)
    requires Represents(text, pos, upos, e)
    ensures upos <= |e.chars| && pos <= |text| && (text == [] ==> pos == 0)
    ensures (upos > 0 <==> pos > 0) && (upos < |e.chars| <==> pos < |text|)
  {
    CursorSplitsText(e);
  }

  class TextEdit {
    var text: seq<Byte>
    var pos: nat
    var upos: nat
    const numeric: bool
    const limit: nat   // text.max_size() - 20
    ghost var chars: seq<seq<Byte>>

    ghost function Model(): Editor
      reads this
    {
      Editor(chars, upos)
    }

    ghost predicate Valid()
      reads this
    {
      Represents(text, pos, upos, Model())
    }

    /** The cursor starts behind the last character. */
    constructor (text: seq<Byte>, numeric: bool, limit: nat)
      requires text == [] || IsLead(text[0])
      ensures Valid() && this.text == text && this.numeric == numeric && this.limit == limit
      ensures Model() == Editor(Chars(text), |Chars(text)|)
    {
      ghost var cs := Chars(text);
      FirstOfJoin(cs, 0);
      assert cs[..|cs|] == cs;
      this.text, this.numeric, this.limit := text, numeric, limit;
      pos := |text|;
      upos := Count(text);
      chars := cs;
    }

    /** Moves the cursor to character `n`. */
    method MoveTo(n: nat)
      requires Valid() && n <= |chars|
      modifies `pos, `upos
      ensures Valid() && Model() == Editor(chars, n)
    {
      HeadOfJoin(chars, n);
      upos := n;
      var first := Uresize(text, upos);
      pos := |first|;
    }

    method BackspaceAtEnd()
      requires Valid() && 0 < upos == |chars|
      modifies `text, `pos, `upos, `chars
      ensures Valid() && Model() == Without(old(Model()), old(upos) - 1)
    {
      HeadOfJoin(chars, upos - 1);
      upos := upos - 1;
      text := Uresize(text, upos);
      pos := |text|;
      assert chars[..upos] + chars[upos + 1..] == chars[..upos];
      chars := chars[..upos];
      assert chars[..upos] == chars;
    }

    method BackspaceInside()
      requires Valid() && 0 < upos < |chars|
      modifies `text, `pos, `upos, `chars
      ensures Valid() && Model() == Without(old(Model()), old(upos) - 1)
    {
      ghost var e := Model();
      var at := upos - 1;
      HeadFits(e, at);
      var first := Uresize(text, at);
      var rest := Luresize(text[|first|..], Count(text) - at - 1);
      ghost var r := Without(e, at);
      RemovalRepresents(e, at, text, first, rest);
      text, pos, upos, chars := first + rest, |first|, at, r.chars;
      assert Model() == r;
    }

    method Backspace()
      requires Valid() && 0 < upos
      modifies `text, `pos, `upos, `chars
      ensures Valid() && Model() == Without(old(Model()), old(upos) - 1)
    {
      CursorTests(text, pos, upos, Model());
      if pos == |text| {
        BackspaceAtEnd();
      } else {
        BackspaceInside();
      }
    }

    method Delete()
      requires Valid() && upos < |chars|
      modifies `text, `chars
      ensures Valid() && Model() == Without(old(Model()), upos)
    {
      ghost var e := Model();
      DeletionRepresents(e);
      var first := Uresize(text, upos + 1);
      var kept := Uresize(first, Count(first) - 1);
      ghost var r := Without(e, upos);
      assert Represents(kept + text[|first|..], pos, upos, r);
      text, chars := kept + text[|first|..], r.chars;
      assert Model() == r;
    }

    /** Inserts a key of one character at the cursor and steps over it. */
    method InsertChar(key: seq<Byte>)
      requires Valid() && Count(key) == 1 && (IsLead(key[0]) || upos > 0)
      modifies `text, `pos, `upos, `chars
      ensures Valid() && Model() == InsertKey(old(Model()), key)
    {
      InsertKeyRepresents(Model(), key);
      ghost var r := InsertKey(Model(), key);
      if |key| == 1 {
        text := text[..pos] + key + text[pos..];
        pos := pos + 1;
        upos := upos + 1;
      } else {
        var head := Uresize(text, upos);
        var first := head + key;
        text := first + text[pos..];
        upos := upos + 1;
        pos := |first|;
      }
      chars := r.chars;
      assert Model() == r;
    }

    /**
     One key: the buffer does what the list of characters does. `StrayKeyIff` says why a key may start with a
     continuation byte only behind a character.
     */
    method Command(key: seq<Byte>) returns (used: bool)
      requires Valid() && (Count(key) == 1 && !IsLead(key[0]) ==> upos > 0)
      modifies this
      ensures Valid()
      ensures (Model(), used) == Edit(old(Model()), key, numeric, limit)
    {
      CursorTests(text, pos, upos, Model());
      if key == LEFT && upos > 0 {
        MoveTo(upos - 1);
      } else if key == RIGHT && pos < |text| {
        MoveTo(upos + 1);
      } else if key == HOME && text != [] && pos > 0 {
        GoHome();
      } else if key == END && text != [] && pos < |text| {
        GoEnd();
      } else if key == BACKSPACE && pos > 0 {
        Backspace();
      } else if key == DELETE && pos < |text| {
        Delete();
      } else {
        used := TypeKey(key);
        return used;
      }
      return true;
    }

    method TypeKey(key: seq<Byte>) returns (used: bool)
      requires Valid() && (Count(key) == 1 && !IsLead(key[0]) ==> upos > 0)
      modifies `text, `pos, `upos, `chars
      ensures Valid() && (Model(), used) == Type(old(Model()), key, numeric, limit)
    {
      if key == SPACE && !numeric {
        InsertChar([32]);
      } else if Count(key) == 1 && |text| < limit {
        if numeric && !IsInt(key) {
          return false;
        }
        InsertChar(key);
      } else {
        return false;
      }
      return true;
    }

    method GoHome()
      requires Valid()
      modifies `pos, `upos
      ensures Valid() && Model() == Editor(chars, 0)
    {
      pos, upos := 0, 0;
      assert chars[..0] == [];
    }

    method GoEnd()
      requires Valid()
      modifies `pos, `upos
      ensures Valid() && Model() == Editor(chars, |chars|)
    {
      CursorSplitsText(Model());
      pos := |text|;
      upos := Count(text);
      assert chars[..|chars|] == chars;
    }
  }

  lemma TypedIsInserted(e: Editor, key: seq<Byte>, numeric: bool, limit: nat)
    requires e.at <= |e.chars| && IsChar(key) && |Join(e.chars)| < limit && (numeric ==> IsInt(key))
    ensures Edit(e, key, numeric, limit) == (Insert(e, key), true)
  {
    NamedKeys();
    OverChar(key, [], 0);
    assert key + [] == key;
  }

  lemma InsertThenWithout(e: Editor, key: seq<Byte>)
    requires e.at <= |e.chars|
    ensures Without(Insert(e, key), e.at) == e
  {
    var chars := Insert(e, key).chars;
    assert chars[..e.at] == e.chars[..e.at] && chars[e.at + 1..] == e.chars[e.at..];
    assert e.chars == e.chars[..e.at] + e.chars[e.at..];
  }

  /** Typing a character and taking it back, from either side, restores text and cursor. */
  lemma InsertIsUndone(e: Editor, key: seq<Byte>, numeric: bool, limit: nat)
    requires e.at <= |e.chars| && IsChar(key) && |Join(e.chars)| < limit && (numeric ==> IsInt(key))
    ensures var (typed, used) := Edit(e, key, numeric, limit);
      && used && typed == Insert(e, key)
      && Edit(typed, BACKSPACE, numeric, limit) == (e, true)
      && Edit(Edit(typed, LEFT, numeric, limit).0, DELETE, numeric, limit) == (e, true)
  {
    TypedIsInserted(e, key, numeric, limit);
    InsertThenWithout(e, key);
    UndoKeys(Insert(e, key), numeric, limit);
  }

  lemma UndoKeys(typed: Editor, numeric: bool, limit: nat)
    requires 0 < typed.at <= |typed.chars|
    ensures Edit(typed, BACKSPACE, numeric, limit) == (Without(typed, typed.at - 1), true)
    ensures Edit(typed, LEFT, numeric, limit) == (typed.(at := typed.at - 1), true)
    ensures Edit(typed.(at := typed.at - 1), DELETE, numeric, limit) == (Without(typed, typed.at - 1), true)
  {
    NamedKeys();
  }

  // ----- runs of keys -----

  /** The editor after a run of keys. */
  function Keys(e: Editor, keys: seq<seq<Byte>>, numeric: bool, limit: nat): (r: Editor)
    requires e.at <= |e.chars|
    ensures r.at <= |r.chars|
    decreases |keys|
  {
    if keys == [] then e else Keys(Edit(e, keys[0], numeric, limit).0, keys[1..], numeric, limit)
  }

  function Times(key: seq<Byte>, n: nat): (keys: seq<seq<Byte>>)
    ensures |keys| == n && forall i :: 0 <= i < n ==> keys[i] == key
  {
    seq(n, _ => key)
  }

  lemma SideKeys(e: Editor, numeric: bool, limit: nat)
    requires e.at <= |e.chars|
    ensures Edit(e, LEFT, numeric, limit) == (if e.at > 0 then e.(at := e.at - 1) else e, e.at > 0)
    ensures Edit(e, RIGHT, numeric, limit) == (if e.at < |e.chars| then e.(at := e.at + 1) else e, e.at < |e.chars|)
  {
    NamedKeys();
  }

  lemma EndKeys(e: Editor, numeric: bool, limit: nat)
    requires e.at <= |e.chars|
    ensures Edit(e, HOME, numeric, limit) == (e.(at := 0), e.at > 0)
    ensures Edit(e, END, numeric, limit) == (e.(at := |e.chars|), e.at < |e.chars|)
  {
    NamedKeys();
  }

  lemma FirstKey(e: Editor, key: seq<Byte>, rest: seq<seq<Byte>>, numeric: bool, limit: nat, u: Editor)
    requires e.at <= |e.chars| && u == Edit(e, key, numeric, limit).0
    ensures Keys(e, [key] + rest, numeric, limit) == Keys(u, rest, numeric, limit)
  {
    assert ([key] + rest)[1..] == rest;
  }

  lemma {:induction false} RightKeys(e: Editor, n: nat, numeric: bool, limit: nat)
    requires e.at + n <= |e.chars|
    ensures Keys(e, Times(RIGHT, n), numeric, limit) == e.(at := e.at + n)
    decreases n
  {
    if n == 0 {
    } else {
      SideKeys(e, numeric, limit);
      assert Times(RIGHT, n) == [RIGHT] + Times(RIGHT, n - 1);
      FirstKey(e, RIGHT, Times(RIGHT, n - 1), numeric, limit, e.(at := e.at + 1));
      RightKeys(e.(at := e.at + 1), n - 1, numeric, limit);
    }
  }

  /** Home and then right `k` times stands before character `k`, in any text; right all the way is end. */
  lemma HomeThenRight(e: Editor, k: nat, numeric: bool, limit: nat)
    requires k <= |e.chars| && e.at <= |e.chars|
    ensures Keys(e, [HOME] + Times(RIGHT, k), numeric, limit) == Editor(e.chars, k)
    ensures Keys(e, [HOME] + Times(RIGHT, |e.chars|), numeric, limit) == Keys(e, [END], numeric, limit)
  {
    HomeRight(e, k, numeric, limit);
    HomeRight(e, |e.chars|, numeric, limit);
    EndKeys(e, numeric, limit);
    FirstKey(e, END, [], numeric, limit, e.(at := |e.chars|));
    assert [END] + [] == [END];
  }

  lemma HomeRight(e: Editor, k: nat, numeric: bool, limit: nat)
    requires k <= |e.chars| && e.at <= |e.chars|
    ensures Keys(e, [HOME] + Times(RIGHT, k), numeric, limit) == Editor(e.chars, k)
  {
    EndKeys(e, numeric, limit);
    FirstKey(e, HOME, Times(RIGHT, k), numeric, limit, e.(at := 0));
    RightKeys(e.(at := 0), k, numeric, limit);
  }

  /** Left takes back right, wherever right can go, and right takes back left. */
  lemma LeftUndoesRight(e: Editor, numeric: bool, limit: nat)
    requires e.at <= |e.chars|
    ensures e.at < |e.chars| ==> Keys(e, [RIGHT, LEFT], numeric, limit) == e
    ensures e.at > 0 ==> Keys(e, [LEFT, RIGHT], numeric, limit) == e
  {
    if e.at < |e.chars| {
      SideKeys(e, numeric, limit);
      SideKeys(e.(at := e.at + 1), numeric, limit);
      TwoKeys(e, RIGHT, LEFT, numeric, limit, e.(at := e.at + 1), e);
    }
    if e.at > 0 {
      SideKeys(e, numeric, limit);
      SideKeys(e.(at := e.at - 1), numeric, limit);
      TwoKeys(e, LEFT, RIGHT, numeric, limit, e.(at := e.at - 1), e);
    }
  }

  lemma TwoKeys(e: Editor, a: seq<Byte>, b: seq<Byte>, numeric: bool, limit: nat, u: Editor, v: Editor)
    requires e.at <= |e.chars| && u == Edit(e, a, numeric, limit).0 && v == Edit(u, b, numeric, limit).0
    ensures Keys(e, [a, b], numeric, limit) == v
  {
    FirstKey(e, a, [b], numeric, limit, u);
    FirstKey(u, b, [], numeric, limit, v);
    assert [a, b] == [a] + [b] && [b] == [b] + [];
  }

  /** The four keys that move change no character, however often they are pressed. */
  lemma {:induction false} MovingKeepsText(e: Editor, keys: seq<seq<Byte>>, numeric: bool, limit: nat)
    requires e.at <= |e.chars| && forall i :: 0 <= i < |keys| ==> keys[i] in {LEFT, RIGHT, HOME, END}
    ensures Keys(e, keys, numeric, limit).chars == e.chars
    decreases |keys|
  {
    if keys == [] {
    } else {
      SideKeys(e, numeric, limit);
      EndKeys(e, numeric, limit);
      assert keys[0] in {LEFT, RIGHT, HOME, END};
      MovingKeepsText(Edit(e, keys[0], numeric, limit).0, keys[1..], numeric, limit);
    }
  }

  /** A key is reported as used exactly when it changed the text or the cursor. */
  lemma UsedIff(e: Editor, key: seq<Byte>, numeric: bool, limit: nat)
    requires e.at <= |e.chars|
    ensures Edit(e, key, numeric, limit).1 <==> Edit(e, key, numeric, limit).0 != e
  {
    TypeUsedIff(e, key, numeric, limit);
    if e.at > 0 { WithoutIsShorter(e, e.at - 1); }
    if e.at < |e.chars| { WithoutIsShorter(e, e.at); }
  }

  lemma WithoutIsShorter(e: Editor, i: nat)
    requires i < |e.chars|
    ensures |Without(e, i).chars| < |e.chars|
  {
  }

  lemma InsertIsLater(e: Editor, key: seq<Byte>)
    requires e.at <= |e.chars|
    ensures Insert(e, key) != e && InsertKey(e, key) != e
  {
    assert Insert(e, key).at > e.at && InsertKey(e, key).at > e.at;
  }

  lemma TypeUsedIff(e: Editor, key: seq<Byte>, numeric: bool, limit: nat)
    requires e.at <= |e.chars|
    ensures Type(e, key, numeric, limit).1 <==> Type(e, key, numeric, limit).0 != e
  {
    InsertIsLater(e, [32]);
    InsertIsLater(e, key);
  }

  predicate AllDigits(e: Editor) {
    forall i :: 0 <= i < |e.chars| ==> IsInt(e.chars[i])
  }

  /** A digit starts with a lead byte. */
  lemma DigitsLead(key: seq<Byte>)
    requires Count(key) == 1 && IsInt(key)
    ensures Stray(key) == 0
  {
  }

  lemma KeyKeepsDigits(e: Editor, key: seq<Byte>, limit: nat)
    requires e.at <= |e.chars| && AllDigits(e)
    ensures AllDigits(Edit(e, key, true, limit).0)
  {
    if Count(key) == 1 && IsInt(key) { DigitsLead(key); }
  }

  /** A numeric field never holds anything but digits, whatever is typed. */
  lemma {:induction false} NumericStaysNumeric(e: Editor, keys: seq<seq<Byte>>, limit: nat)
    requires e.at <= |e.chars| && AllDigits(e)
    ensures AllDigits(Keys(e, keys, true, limit))
    decreases |keys|
  {
    if keys == [] {
    } else {
      KeyKeepsDigits(e, keys[0], limit);
      NumericStaysNumeric(Edit(e, keys[0], true, limit).0, keys[1..], limit);
    }
  }

  /** The names of the keys, as the input decoder spells them. */
  lemma KeyNames()
    ensures LEFT == Ascii("left") && RIGHT == Ascii("right") && HOME == Ascii("home") && END == Ascii("end")
    ensures BACKSPACE == Ascii("backspace") && DELETE == Ascii("delete") && SPACE == Ascii("space")
  {
  }

  // ----- when cursors fit -----

  /** Some list of characters with a cursor is represented. */
  ghost predicate Fits(text: seq<Byte>, pos: nat, upos: nat) {
    exists e: Editor :: Represents(text, pos, upos, e)
  }

  /**
   A key that starts with continuation bytes keeps text and cursors in step exactly when a character stands before
   the cursor, which then takes them in.
   */
  lemma StrayKeyIff(e: Editor, key: seq<Byte>)
    requires AllChars(e.chars) && e.at <= |e.chars| && Count(key) == 1
    ensures var text, pos := Join(e.chars), Offset(e);
      pos <= |text| && (Fits(text[..pos] + key + text[pos..], pos + |key|, e.at + 1) <==> IsLead(key[0]) || e.at > 0)
  {
    CursorSplitsText(e);
    if IsLead(key[0]) || e.at > 0 {
      InsertKeyRepresents(e, key);
    } else {
      var text, pos := Join(e.chars), Offset(e);
      StrayDoesNotFit(text[..pos] + key + text[pos..], pos + |key|, e.at + 1);
    }
  }

  lemma StrayDoesNotFit(text: seq<Byte>, pos: nat, upos: nat)
    requires text != [] && !IsLead(text[0])
    ensures !Fits(text, pos, upos)
  {
    forall e: Editor | Represents(text, pos, upos, e) ensures false { JoinNonEmpty(e.chars); }
  }

  /** A continuation byte and an A, typed into an empty field. */
  lemma StrayKeyStrands()
    ensures Count([128, 65]) == 1 && !Fits([128, 65], 2, 1)
  {
    assert [128, 65][1..] == [65] && [65][1..] == [];
    assert Count([65]) == 1;
    StrayDoesNotFit([128, 65], 2, 1);
  }

  /** A new field's cursors fit its text exactly when the text is empty or starts with a lead byte. */
  lemma NewFieldIff(text: seq<Byte>)
    ensures Fits(text, |text|, Count(text)) <==> text == [] || IsLead(text[0])
  {
    if text == [] || IsLead(text[0]) {
      var cs := Chars(text);
      FirstOfJoin(cs, 0);
      assert cs[..|cs|] == cs;
      assert Represents(text, |text|, Count(text), Editor(cs, |cs|));
    } else {
      StrayDoesNotFit(text, |text|, Count(text));
    }
  }

  /** `clear()` empties the text but leaves both cursors: the field is usable again only if they were at 0. */
  lemma ClearStrandsCursor(text: seq<Byte>, pos: nat, upos: nat, e: Editor)
    requires Represents(text, pos, upos, e)
    ensures Fits([], pos, upos) <==> upos == 0
  {
    if upos == 0 {
      assert e.chars[..0] == [];
      assert Represents([], pos, upos, Editor([], 0));
    }
    forall e': Editor | Represents([], pos, upos, e') ensures upos == 0 { JoinNonEmpty(e'.chars); }
  }

  /** A field with one character, cleared: the cursors still stand behind it. */
  lemma ClearedFieldStrands()
    ensures Represents([65], 1, 1, Editor([[65]], 1)) && !Fits([], 1, 1)
  {
    JoinOne([65]);
    assert [[65]][..1] == [[65]];
    ClearStrandsCursor([65], 1, 1, Editor([[65]], 1));
  }

  lemma NamedKeys()
    ensures Count(LEFT) == 4 && Count(RIGHT) == 5 && Count(HOME) == 4 && Count(END) == 3
    ensures Count(BACKSPACE) == 9 && Count(DELETE) == 6 && Count(SPACE) == 5
  {
  }

  /** A key with one lead byte, in front, is one character. */
  lemma OneChar(key: seq<Byte>)
    requires Count(key) == 1 && IsLead(key[0])
    ensures IsChar(key)
  {
    NoLeads(key[1..]);
    forall i | 0 < i < |key| ensures !IsLead(key[i]) {
      assert key[i] == key[1..][i - 1];
    }
  }

  lemma {:induction false} NoLeads(s: seq<Byte>)
    requires Count(s) == 0
    ensures forall i :: 0 <= i < |s| ==> !IsLead(s[i])
  {
    if s != [] {
      NoLeads(s[1..]);
      assert s == [s[0]] + s[1..];
    }
  }
}
