/**
 The runner's frame protocol: each cycle copies the previous frame, renders text over it, prints either
 the difference or a full redraw, and swaps the buffers. The terminal at the other end interprets the bytes.
 */
module Frames {
  import opened Arithmetic
  import opened Bytes
  import opened Cells
  import opened Interpreter
  import opened Tokens
  import opened Emitter
  import opened Fidelity
  import opened Rendering
  import opened Uncoloring
  import opened ScreenBuffers

  /** One cycle's input; `inactiveFg` is the theme's colour sequence for text under an overlay. */
  datatype Frame = Frame(
    output: seq<Byte>, overlay: seq<Byte>, inactiveFg: seq<Byte>,
    forceFull: bool, sync: bool, resetFg: nat, resetBg: nat)

  const UNBOLD: Token := Csi(false, [50, 50], SGR)                    // ESC [ 22 m
  const SYNC_START: Token := Csi(true, [50, 48, 50, 54], 104)         // ESC [ ? 2026 h
  const SYNC_END: Token := Csi(true, [50, 48, 50, 54], 108)           // ESC [ ? 2026 l
  const ERASE: Token := Csi(false, [50], 74)                          // ESC [ 2 J
  const HOME: Token := Csi(false, [48, SEMI, 48], HVP)                // ESC [ 0 ; 0 f

  /** The texts a frame renders, in order: the output is stripped of colour when an overlay covers it. */
  function Texts(f: Frame): seq<seq<Byte>> {
    if f.overlay == [] then [f.output]
    else if f.output == [] then [f.overlay]
    else [TokenBytes(UNBOLD) + f.inactiveFg + Uncoloured(f.output), f.overlay]
  }

  /** The grid after rendering one text; each text starts from the home position with the baseline pen. */
  function Render(w: nat, h: nat, cells: seq<Cell>, s: seq<Byte>, f: Frame): (r: seq<Cell>)
    requires |cells| == w * h
    ensures |r| == |cells|
  {
    Run(Screen(w, h, cells, false, 0, 0, Pen(f.resetFg, f.resetBg, 0)), s).cells
  }

  function RenderAll(w: nat, h: nat, cells: seq<Cell>, texts: seq<seq<Byte>>, f: Frame): (r: seq<Cell>)
    requires |cells| == w * h
    ensures |r| == |cells|
    decreases |texts|
  {
    if texts == [] then cells else RenderAll(w, h, Render(w, h, cells, texts[0], f), texts[1..], f)
  }

  /** The theme's colours are words, as their type says. */
  predicate WordColours(f: Frame) {
    f.resetFg < WORD && f.resetBg < WORD
  }

  ghost predicate Drawable(f: Frame) {
    && ValidColour(f.resetFg) && ValidColour(f.resetBg)
    && forall i :: 0 <= i < |Texts(f)| ==> Renderable(Texts(f)[i])
  }

  /** The abstract state of a screen buffer between cycles; the current grid is about to be overwritten. */
  datatype Buffer = Buffer(w: nat, h: nat, previous: seq<Cell>, forceFull: bool) {
    ghost predicate Valid() {
      |previous| == w * h && AllWellFormed(previous)
    }

    function Next(f: Frame): seq<Cell>
      requires |previous| == w * h
    {
      RenderAll(w, h, previous, Texts(f), f)
    }

    predicate Full(f: Frame) {
      forceFull || f.forceFull
    }

    /** The grid the terminal is taken to show when printing starts. */
    function Base(f: Frame): seq<Cell> {
      if Full(f) then Blanks(|previous|) else previous
    }

    function After(f: Frame): Buffer
      requires |previous| == w * h
    {
      Buffer(w, h, Next(f), false)
    }
  }

  function Prefix(full: bool, f: Frame): seq<Token> {
    (if f.sync then [SYNC_START] else []) + (if full then [ERASE, HOME] else [])
  }

  function Suffix(f: Frame): seq<Token> {
    if f.sync then [SYNC_END] else []
  }

  /** The bytes of one frame. */
  function FrameBytes(b: Buffer, f: Frame): seq<Byte>
    requires |b.previous| == b.w * b.h && Printable(b.Next(f))
  {
    Text(Prefix(b.Full(f), f)) + Emit(b.w, b.Next(f), b.Base(f)) + Text(Suffix(f))
  }

  lemma {:induction false} RenderAllKeepsWellFormed(w: nat, h: nat, cells: seq<Cell>, texts: seq<seq<Byte>>, f: Frame)
    requires |cells| == w * h && AllWellFormed(cells)
    requires ValidColour(f.resetFg) && ValidColour(f.resetBg)
    requires forall i :: 0 <= i < |texts| ==> Renderable(texts[i])
    ensures AllWellFormed(RenderAll(w, h, cells, texts, f))
    decreases |texts|
  {
    if texts != [] {
      RenderKeepsWellFormed(Screen(w, h, cells, false, 0, 0, Pen(f.resetFg, f.resetBg, 0)), texts[0]);
      RenderAllKeepsWellFormed(w, h, Render(w, h, cells, texts[0], f), texts[1..], f);
    }
  }

  lemma {:induction false} RenderAllKeepsWords(w: nat, h: nat, cells: seq<Cell>, texts: seq<seq<Byte>>, f: Frame)
    requires |cells| == w * h && Printable(cells) && WordColours(f)
    ensures Printable(RenderAll(w, h, cells, texts, f))
    decreases |texts|
  {
    if texts == [] {
    } else {
      RunKeepsWords(Screen(w, h, cells, false, 0, 0, Pen(f.resetFg, f.resetBg, 0)), texts[0]);
      RenderAllKeepsWords(w, h, Render(w, h, cells, texts[0], f), texts[1..], f);
    }
  }

  lemma WellFormedPrintable(cells: seq<Cell>)
    requires AllWellFormed(cells)
    ensures Printable(cells)
  {
    forall i | 0 <= i < |cells| ensures cells[i].fg < WORD && cells[i].bg < WORD {
      assert WellFormed(cells[i]);
    }
  }

  lemma NextIsWellFormed(b: Buffer, f: Frame)
    requires b.Valid() && Drawable(f)
    ensures AllWellFormed(b.Next(f)) && Printable(b.Next(f)) && b.After(f).Valid()
  {
    RenderAllKeepsWellFormed(b.w, b.h, b.previous, Texts(f), f);
    WellFormedPrintable(b.Next(f));
  }

  // ----- the runner's block -----

  ghost function Abstract(buf: ScreenBuffer): Buffer
    reads buf, buf.previous
  {
    Buffer(buf.w, buf.h, buf.previous[..], buf.forceFull)
  }

  /** Renders, prints and swaps: one pass of the runner's drawing state, for any text. */
  method DrawFrame(buf: ScreenBuffer, f: Frame) returns (bytes: seq<Byte>)
    requires buf.Valid() && Printable(buf.previous[..]) && WordColours(f)
    modifies buf, buf.current
    ensures buf.Valid() && Abstract(buf) == old(Abstract(buf)).After(f)
    ensures Printable(old(Abstract(buf)).Next(f)) && Printable(buf.previous[..])
    ensures bytes == FrameBytes(old(Abstract(buf)), f)
  {
    ghost var b := Abstract(buf);
    RenderAllKeepsWords(b.w, b.h, b.previous, Texts(f), f);
    if f.forceFull {
      buf.SetForceFull();
    }
    buf.ClearCurrent();
    RenderTexts(buf, f);
    assert buf.current[..] == b.Next(f);

    var doFull := buf.forceFull || f.forceFull;
    var diff;
    if doFull {
      diff := buf.FullEmit();
      buf.ClearForceFull();
    } else {
      diff := buf.DiffAndEmit();
    }

    bytes := Text(Prefix(doFull, f)) + diff + Text(Suffix(f));
    buf.Swap();
  }

  method RenderTexts(buf: ScreenBuffer, f: Frame)
    requires buf.Valid()
    modifies buf.current
    ensures buf.current[..] == RenderAll(buf.w, buf.h, old(buf.current[..]), Texts(f), f)
  {
    ghost var w, h, cells := buf.w, buf.h, buf.current[..];
    if f.overlay == [] {
      buf.RenderToBuffer(f.output, f.resetFg, f.resetBg);
      RenderOne(w, h, cells, f.output, f);
    } else if f.output != [] {
      var plain := Uncolor(f.output);
      var under := TokenBytes(UNBOLD) + f.inactiveFg + plain;
      buf.RenderToBuffer(under, f.resetFg, f.resetBg);
      buf.RenderToBuffer(f.overlay, f.resetFg, f.resetBg);
      RenderOne(w, h, Render(w, h, cells, under, f), f.overlay, f);
      assert Texts(f)[1..] == [f.overlay];
    } else {
      buf.RenderToBuffer(f.overlay, f.resetFg, f.resetBg);
      RenderOne(w, h, cells, f.overlay, f);
    }
  }

  lemma RenderOne(w: nat, h: nat, cells: seq<Cell>, s: seq<Byte>, f: Frame)
    requires |cells| == w * h
    ensures RenderAll(w, h, cells, [s], f) == Render(w, h, cells, s, f)
  {
    assert [s][1..] == [];
  }

  // ----- one frame on a terminal -----

  /** The terminal after the frame's prefix: blanked by a full redraw, otherwise as it was. */
  lemma PrefixMeaning(t: Screen, full: bool, f: Frame)
    requires t.Valid() && t.erases
    ensures AllComplete(Prefix(full, f)) && AllComplete(Suffix(f))
    ensures var r := ApplyAll(t, Prefix(full, f));
      r.cells == (if full then Blanks(|t.cells|) else t.cells) && r.pen == t.pen
    ensures forall u: Screen :: u.Valid() ==> ApplyAll(u, Suffix(f)) == u
  {
    var sync := if f.sync then [SYNC_START] else [];
    var clear := if full then [ERASE, HOME] else [];
    assert ApplyAll(t, sync) == t;
    ApplyAllConcat(t, sync, clear);
    if full {
      ScanDecimal(2, [], []);
      assert Decimal(2) + [] == [50];
      assert Params([50]) == [2];
      var erased := Apply(t, ERASE);
      assert clear[1..] == [HOME] && [HOME][1..] == [];
      assert ApplyAll(erased, [HOME]) == Apply(erased, HOME);
    }
  }

  lemma TwoTexts(t: Screen, a: seq<Token>, b: seq<Token>)
    requires t.Valid() && AllComplete(a) && AllComplete(b)
    ensures Run(t, Text(a) + Text(b)) == ApplyAll(Run(t, Text(a)), b)
  {
    RunText(t, a, Text(b));
    RunWhole(t, a);
    RunWhole(ApplyAll(t, a), b);
  }

  lemma ThreeTexts(t: Screen, a: seq<Token>, b: seq<Token>, c: seq<Token>, s: seq<Byte>)
    requires t.Valid() && AllComplete(a) && AllComplete(b) && AllComplete(c) && s == Text(b) + Text(c)
    ensures Run(t, Text(a) + s) == ApplyAll(Run(ApplyAll(t, a), Text(b)), c)
  {
    RunText(t, a, s);
    TwoTexts(ApplyAll(t, a), b, c);
  }

  /** A frame's bytes paint the next grid over the base the emitter assumed. */
  lemma FrameOnTerminal(t: Screen, b: Buffer, f: Frame)
    requires t.Valid() && t.erases && t.width == b.w && t.height == b.h && b.Valid() && Drawable(f)
    ensures Printable(b.Next(f))
    ensures var start := ApplyAll(t, Prefix(b.Full(f), f));
      && start.pen == t.pen && start.cells == (if b.Full(f) then Blanks(|t.cells|) else t.cells)
      && Run(t, FrameBytes(b, f)).cells == Run(start, Emit(b.w, b.Next(f), b.Base(f))).cells
  {
    NextIsWellFormed(b, f);
    PrefixMeaning(t, b.Full(f), f);
    EmitComplete(b.w, b.Next(f), b.Base(f), 0, 0, 0, FIRST);
    var pre, toks, post := Prefix(b.Full(f), f), EmitFrom(b.w, b.Next(f), b.Base(f), 0, 0, 0, FIRST), Suffix(f);
    ThreeTexts(t, pre, toks, post, Text(toks) + Text(post));
    assert FrameBytes(b, f) == Text(pre) + (Text(toks) + Text(post));
  }

  // ----- runs -----

  /** A resize leaves the terminal with some content of the new size, which the program does not know. */
  datatype Event = Resized(w: nat, h: nat, after: Screen) | Drawn(frame: Frame)

  datatype World = World(buffer: Buffer, terminal: Screen)

  ghost predicate Possible(e: Event) {
    match e
    case Resized(w, h, after) =>
      after.Valid() && after.erases && after.width == w && after.height == h && ValidAttrs(after.pen.attrs)
    case Drawn(f) => Drawable(f)
  }

  ghost predicate Consistent(wd: World) {
    && wd.buffer.Valid() && wd.terminal.Valid() && wd.terminal.erases
    && wd.terminal.width == wd.buffer.w && wd.terminal.height == wd.buffer.h
    && ValidAttrs(wd.terminal.pen.attrs)
    && (!wd.buffer.forceFull ==> SameLooks(wd.terminal.cells, wd.buffer.previous))
  }

  ghost function Advance(wd: World, e: Event): (r: World)
    requires Consistent(wd) && Possible(e)
    ensures Consistent(r)
    ensures e.Drawn? ==> !r.buffer.forceFull && r.buffer.previous == wd.buffer.Next(e.frame)
  {
    match e
    case Resized(w, h, after) => World(Buffer(w, h, Blanks(w * h), true), after)
    case Drawn(f) =>
      DrawnKeepsConsistent(wd, f);
      World(wd.buffer.After(f), Run(wd.terminal, FrameBytes(wd.buffer, f)))
  }

  /** One frame restores agreement between the terminal and the previous grid, from any consistent state. */
  lemma DrawnKeepsConsistent(wd: World, f: Frame)
    requires Consistent(wd) && Drawable(f)
    ensures Printable(wd.buffer.Next(f))
    ensures Consistent(World(wd.buffer.After(f), Run(wd.terminal, FrameBytes(wd.buffer, f))))
  {
    var b, t := wd.buffer, wd.terminal;
    NextIsWellFormed(b, f);
    FrameOnTerminal(t, b, f);
    RedrawShowsCurrent(ApplyAll(t, Prefix(b.Full(f), f)), b.Next(f), b.Base(f));
    RunKeepsAttrs(t, FrameBytes(b, f));
  }

  ghost function Play(wd: World, events: seq<Event>): (r: World)
    requires Consistent(wd) && forall i :: 0 <= i < |events| ==> Possible(events[i])
    ensures Consistent(r)
    decreases |events|
  {
    if events == [] then wd else Play(Advance(wd, events[0]), events[1..])
  }

  lemma {:induction false} PlayLast(wd: World, events: seq<Event>, e: Event)
    requires Consistent(wd) && Possible(e) && forall i :: 0 <= i < |events| ==> Possible(events[i])
    ensures Play(wd, events + [e]) == Advance(Play(wd, events), e)
    decreases |events|
  {
    if events == [] {
      assert ([] + [e])[1..] == [];
    } else {
      assert (events + [e])[1..] == events[1..] + [e];
      PlayLast(Advance(wd, events[0]), events[1..], e);
    }
  }

  /**
   After any history of resizes and frames that ends with a frame, the terminal shows the characters and
   colours of the grid that was just rendered.
   */
  lemma EveryFrameIsShown(wd: World, events: seq<Event>, f: Frame)
    requires Consistent(wd) && Drawable(f) && forall i :: 0 <= i < |events| ==> Possible(events[i])
    ensures var before, after := Play(wd, events), Play(wd, events + [Drawn(f)]);
      && after.buffer.previous == before.buffer.Next(f)
      && SameLooks(after.terminal.cells, after.buffer.previous)
  {
    PlayLast(wd, events, Drawn(f));
  }

  // ----- attributes over a run -----

  /** The attribute changes of this frame can be expressed by the codes the emitter sends. */
  ghost predicate FrameExpressible(wd: World, f: Frame)
    requires wd.buffer.Valid()
  {
    Expressible(wd.terminal.pen.attrs, ChangedAttrs(wd.buffer.Next(f), wd.buffer.Base(f), 0))
  }

  /** The terminal agrees with the previous grid in every respect, or is about to be cleared. */
  ghost predicate Exact(wd: World) {
    !wd.buffer.forceFull ==> wd.terminal.cells == wd.buffer.previous
  }

  /** Exactly when a frame is reproduced with its attributes. */
  lemma FrameIsExactIff(wd: World, f: Frame)
    requires Consistent(wd) && Exact(wd) && Drawable(f)
    ensures Exact(Advance(wd, Drawn(f))) <==> FrameExpressible(wd, f)
  {
    var b, t := wd.buffer, wd.terminal;
    NextIsWellFormed(b, f);
    FrameOnTerminal(t, b, f);
    var start := ApplyAll(t, Prefix(b.Full(f), f));
    assert start.cells == b.Base(f);
    RedrawIsExactIff(start, b.Next(f), b.Base(f));
  }

  ghost predicate AllExpressible(wd: World, events: seq<Event>)
    requires Consistent(wd) && forall i :: 0 <= i < |events| ==> Possible(events[i])
    decreases |events|
  {
    events == []
    || ((events[0].Drawn? ==> FrameExpressible(wd, events[0].frame))
        && AllExpressible(Advance(wd, events[0]), events[1..]))
  }

  /** Runs whose frames are all expressible never lose an attribute. */
  lemma {:induction false} ExpressibleRunsAreExact(wd: World, events: seq<Event>)
    requires Consistent(wd) && Exact(wd) && forall i :: 0 <= i < |events| ==> Possible(events[i])
    requires AllExpressible(wd, events)
    ensures Exact(Play(wd, events))
    decreases |events|
  {
    if events != [] {
      if events[0].Drawn? { FrameIsExactIff(wd, events[0].frame); }
      ExpressibleRunsAreExact(Advance(wd, events[0]), events[1..]);
    }
  }
}
