/** Where the boxes go on the screen, in a build without graphics cards. */
module Layouts {

  const CPU_HEIGHT_P := 32
  const NET_HEIGHT_P := 28
  const MEM_WIDTH_P := 45
  const NET_WIDTH_P := 45
  const CPU_MIN_WIDTH := 60
  const CPU_MIN_HEIGHT := 8
  const MEM_MIN_WIDTH := 36
  const MEM_MIN_HEIGHT := 10
  const NET_MIN_HEIGHT := 6
  const PROC_MIN_WIDTH := 44
  const PROC_MIN_HEIGHT := 16

  datatype Rect = Rect(x: int, y: int, width: int, height: int)

  datatype Terminal = Terminal(width: nat, height: nat)

  datatype Shown = Shown(cpu: bool, mem: bool, net: bool, proc: bool)

  datatype Options = Options(cpuBottom: bool, memBelowNet: bool, procLeft: bool)

  datatype Size = Size(width: nat, height: nat)

  const HIDDEN := Rect(1, 1, 0, 0)

  function Max(a: int, b: int): int {
    if a < b then b else a
  }

  /** `percent` of `n`, rounded to the nearest whole number, halves upwards. */
  function Nearest(n: nat, percent: nat): (r: nat)
    ensures 100 * r - 50 <= n * percent < 100 * r + 50
  {
    (n * percent + 50) / 100
  }

  function Upwards(n: nat, percent: nat): (r: nat)
    ensures 100 * r - 100 < n * percent <= 100 * r
  {
    (n * percent + 99) / 100
  }

  function Downwards(n: nat, percent: nat): (r: nat)
    ensures 100 * r <= n * percent < 100 * r + 100
  {
    n * percent / 100
  }

  /** The smallest terminal the program accepts for these boxes. */
  function MinSize(shown: Shown): Size {
    var left := if shown.mem || shown.net then MEM_MIN_WIDTH else 0;
    var width := left + if shown.proc then PROC_MIN_WIDTH else 0;
    Size(
      if shown.cpu && width < CPU_MIN_WIDTH then CPU_MIN_WIDTH else width,
      (if shown.cpu then CPU_MIN_HEIGHT else 0)
      + if shown.proc then PROC_MIN_HEIGHT
        else (if shown.mem then MEM_MIN_HEIGHT else 0) + if shown.net then NET_MIN_HEIGHT else 0)
  }

  predicate Accepted(t: Terminal, shown: Shown) {
    && (shown.cpu || shown.mem || shown.net || shown.proc)
    && t.width >= MinSize(shown).width && t.height >= MinSize(shown).height
  }

  predicate Holds(r: Rect, px: int, py: int) {
    r.x <= px < r.x + r.width && r.y <= py < r.y + r.height
  }

  datatype Layout = Layout(cpu: Rect, mem: Rect, net: Rect, proc: Rect)

  /** The number of boxes that lie on a place. */
  function Hits(l: Layout, px: int, py: int): nat {
    (if Holds(l.cpu, px, py) then 1 else 0) + (if Holds(l.mem, px, py) then 1 else 0)
    + (if Holds(l.net, px, py) then 1 else 0) + (if Holds(l.proc, px, py) then 1 else 0)
  }

  /** Every place of the screen lies in exactly one box, and no box reaches beyond it. */
  ghost predicate Partitions(l: Layout, t: Terminal) {
    forall px, py :: Hits(l, px, py) == if 1 <= px <= t.width && 1 <= py <= t.height then 1 else 0
  }

  predicate ShowsExactly(l: Layout, shown: Shown) {
    && (if shown.cpu then l.cpu.width > 0 && l.cpu.height > 0 else l.cpu == HIDDEN)
    && (if shown.mem then l.mem.width > 0 && l.mem.height > 0 else l.mem == HIDDEN)
    && (if shown.net then l.net.width > 0 && l.net.height > 0 else l.net == HIDDEN)
    && (if shown.proc then l.proc.width > 0 && l.proc.height > 0 else l.proc == HIDDEN)
  }

  function CpuRect(t: Terminal, shown: Shown, options: Options): Rect {
    if !shown.cpu then HIDDEN
    else
      var height := Max(8, Upwards(t.height, if shown == Shown(true, false, false, false) then 100 else CPU_HEIGHT_P));
      Rect(1, if options.cpuBottom then t.height - height + 1 else 1, Nearest(t.width, 100), height)
  }

  function MemRect(t: Terminal, shown: Shown, options: Options, cpu: Rect): Rect {
    if !shown.mem then HIDDEN
    else
      var width := Nearest(t.width, if shown.proc then MEM_WIDTH_P else 100);
      var height := Downwards(t.height,
        100 - (if shown.cpu then CPU_HEIGHT_P else 0) - if shown.net then NET_HEIGHT_P else 0);
      Rect(
        if options.procLeft && shown.proc then t.width - width + 1 else 1,
        if options.memBelowNet && shown.net then t.height - height + 1 - (if options.cpuBottom then cpu.height else 0)
        else if options.cpuBottom then 1 else cpu.height + 1,
        width, height)
  }

  function NetRect(t: Terminal, shown: Shown, options: Options, cpu: Rect, mem: Rect): Rect {
    if !shown.net then HIDDEN
    else
      var width := Nearest(t.width, if shown.proc then NET_WIDTH_P else 100);
      var height := t.height - cpu.height - mem.height;
      Rect(
        if options.procLeft && shown.proc then t.width - width + 1 else 1,
        if options.memBelowNet && shown.mem then (if options.cpuBottom then 1 else cpu.height + 1)
        else t.height - height + 1 - (if options.cpuBottom then cpu.height else 0),
        width, height)
  }

  function ProcRect(t: Terminal, shown: Shown, options: Options, cpu: Rect, mem: Rect, net: Rect): Rect {
    if !shown.proc then HIDDEN
    else
      var width := t.width - if shown.mem then mem.width else if shown.net then net.width else 0;
      Rect(
        if options.procLeft then 1 else t.width - width + 1,
        if options.cpuBottom && shown.cpu then 1 else cpu.height + 1,
        width, t.height - cpu.height)
  }

  function Placed(t: Terminal, shown: Shown, options: Options): Layout {
    var cpu := CpuRect(t, shown, options);
    var mem := MemRect(t, shown, options, cpu);
    var net := NetRect(t, shown, options, cpu, mem);
    Layout(cpu, mem, net, ProcRect(t, shown, options, cpu, mem, net))
  }

  /** The places of the boxes, filled in one after another. */
  class Screen {
    var cpu: Rect
    var mem: Rect
    var net: Rect
    var proc: Rect

    constructor ()
      ensures cpu == mem == net == proc == HIDDEN
    {
      cpu, mem, net, proc := HIDDEN, HIDDEN, HIDDEN, HIDDEN;
    }

    method PlaceCpu(t: Terminal, shown: Shown, options: Options)
      modifies this`cpu
      requires cpu == HIDDEN
      ensures cpu == CpuRect(t, shown, options)
    {
      if shown.cpu {
        var all := shown == Shown(true, false, false, false);
        cpu := cpu.(width := Nearest(t.width, 100),
                    height := Max(8, Upwards(t.height, if all then 100 else CPU_HEIGHT_P)));
        cpu := cpu.(x := 1, y := if options.cpuBottom then t.height - cpu.height + 1 else 1);
      }
    }

    method PlaceMem(t: Terminal, shown: Shown, options: Options)
      modifies this`mem
      requires mem == HIDDEN
      ensures mem == MemRect(t, shown, options, cpu)
    {
      if shown.mem {
        mem := mem.(width := Nearest(t.width, if shown.proc then MEM_WIDTH_P else 100),
                    height := Downwards(t.height, 100 - (if shown.cpu then CPU_HEIGHT_P else 0)
                                                  - if shown.net then NET_HEIGHT_P else 0));
        mem := mem.(x := if options.procLeft && shown.proc then t.width - mem.width + 1 else 1);
        if options.memBelowNet && shown.net {
          mem := mem.(y := t.height - mem.height + 1 - if options.cpuBottom then cpu.height else 0);
        } else {
          mem := mem.(y := if options.cpuBottom then 1 else cpu.height + 1);
        }
      }
    }

    method PlaceNet(t: Terminal, shown: Shown, options: Options)
      modifies this`net
      requires net == HIDDEN
      ensures net == NetRect(t, shown, options, cpu, mem)
    {
      if shown.net {
        net := net.(width := Nearest(t.width, if shown.proc then NET_WIDTH_P else 100),
                    height := t.height - cpu.height - mem.height);
        net := net.(x := if options.procLeft && shown.proc then t.width - net.width + 1 else 1);
        if options.memBelowNet && shown.mem {
          net := net.(y := if options.cpuBottom then 1 else cpu.height + 1);
        } else {
          net := net.(y := t.height - net.height + 1 - if options.cpuBottom then cpu.height else 0);
        }
      }
    }

    method PlaceProc(t: Terminal, shown: Shown, options: Options)
      modifies this`proc
      requires proc == HIDDEN
      ensures proc == ProcRect(t, shown, options, cpu, mem, net)
    {
      if shown.proc {
        proc := proc.(width := t.width - if shown.mem then mem.width else if shown.net then net.width else 0,
                      height := t.height - cpu.height);
        proc := proc.(x := if options.procLeft then 1 else t.width - proc.width + 1,
                      y := if options.cpuBottom && shown.cpu then 1 else cpu.height + 1);
      }
    }

    method CalcSizes(t: Terminal, shown: Shown, options: Options)
      modifies this
      ensures Layout(cpu, mem, net, proc) == Placed(t, shown, options)
      ensures Accepted(t, shown) ==>
        (Partitions(Layout(cpu, mem, net, proc), t) <==> !Crowded(t, shown))
    {
      cpu, mem, net, proc := HIDDEN, HIDDEN, HIDDEN, HIDDEN;
      PlaceCpu(t, shown, options);
      PlaceMem(t, shown, options);
      PlaceNet(t, shown, options);
      PlaceProc(t, shown, options);
      if Accepted(t, shown) {
        PartitionIff(t, shown, options);
      }
    }
  }

  /** The cpu and mem boxes without the net box, on too few lines. */
  predicate Crowded(t: Terminal, shown: Shown) {
    shown.cpu && shown.mem && !shown.net && t.height < 22
  }

  /** The boxes beside or below the cpu box fill `width` by `height` places from line `top` on. */
  predicate FillsBelow(l: Layout, shown: Shown, top: int, width: int, height: int) {
    var side := if shown.mem then l.mem else if shown.net then l.net else HIDDEN;
    && (shown.mem || shown.net ==> l.mem.height + l.net.height == height && side.width > 0)
    && (shown.mem && shown.net ==>
      && l.mem.x == l.net.x && l.mem.width == l.net.width && l.mem.height > 0 && l.net.height > 0
      && ((l.mem.y == top && l.net.y == top + l.mem.height) || (l.net.y == top && l.mem.y == top + l.net.height)))
    && (shown.mem != shown.net ==> side.y == top)
    && (shown.proc ==> l.proc.y == top && l.proc.height == height && l.proc.width == width - side.width)
    && (shown.proc && (shown.mem || shown.net) ==>
      (side.x == 1 && l.proc.x == side.width + 1) || (l.proc.x == 1 && side.x == l.proc.width + 1))
    && (shown.proc && !(shown.mem || shown.net) ==> l.proc.x == 1)
    && (!shown.proc && (shown.mem || shown.net) ==> side.x == 1 && side.width == width)
  }

  lemma PlacedFills(t: Terminal, shown: Shown, options: Options)
    requires Accepted(t, shown) && !Crowded(t, shown)
    ensures var l := Placed(t, shown, options);
      && ShowsExactly(l, shown)
      && (shown.cpu ==> l.cpu.x == 1 && l.cpu.width == t.width)
      && l.cpu.y == (if shown.cpu && options.cpuBottom then t.height - l.cpu.height + 1 else 1)
      && (!(shown.mem || shown.net || shown.proc) ==> l.cpu.height == t.height)
      && FillsBelow(l, shown, if options.cpuBottom then 1 else l.cpu.height + 1, t.width, t.height - l.cpu.height)
  {
  }

  lemma FillsAt(l: Layout, shown: Shown, top: int, width: int, height: int, px: int, py: int)
    requires ShowsExactly(l, shown) && FillsBelow(l, shown, top, width, height)
    requires shown.mem || shown.net || shown.proc
    ensures Hits(l.(cpu := HIDDEN), px, py) == if 1 <= px <= width && top <= py < top + height then 1 else 0
  {
  }

  lemma Divides(t: Terminal, shown: Shown, options: Options)
    requires Accepted(t, shown) && !Crowded(t, shown)
    ensures Partitions(Placed(t, shown, options), t)
  {
    var l := Placed(t, shown, options);
    PlacedFills(t, shown, options);
    var top := if options.cpuBottom then 1 else l.cpu.height + 1;
    forall px, py ensures Hits(l, px, py) == if 1 <= px <= t.width && 1 <= py <= t.height then 1 else 0 {
      if shown.mem || shown.net || shown.proc {
        FillsAt(l, shown, top, t.width, t.height - l.cpu.height, px, py);
      }
    }
  }

  lemma Overlaps(t: Terminal, shown: Shown, options: Options)
    requires Accepted(t, shown) && Crowded(t, shown)
    ensures !Partitions(Placed(t, shown, options), t)
  {
    // One place that lies in two boxes, or below the screen.
    var py := if options.cpuBottom then t.height - 7 else t.height + 1;
    assert Hits(Placed(t, shown, options), 1, py) == if options.cpuBottom then 2 else 1;
  }

  /**
   On every accepted terminal the shown boxes divide the screen among them, except when the cpu and mem
   boxes are shown without the net box on fewer than 22 lines.
   */
  lemma PartitionIff(t: Terminal, shown: Shown, options: Options)
    requires Accepted(t, shown)
    ensures Partitions(Placed(t, shown, options), t) <==> !Crowded(t, shown)
  {
    if Crowded(t, shown) { Overlaps(t, shown, options); } else { Divides(t, shown, options); }
  }

  /** Exactly the shown boxes have room, and each stands on the side the options ask for. */
  lemma SidesAsAsked(t: Terminal, shown: Shown, options: Options)
    requires Accepted(t, shown)
    ensures var l := Placed(t, shown, options);
      && ShowsExactly(l, shown)
      && (shown.cpu && !Crowded(t, shown) ==>
           (l.cpu.y + l.cpu.height == t.height + 1 && options.cpuBottom) || (l.cpu.y == 1 && !options.cpuBottom))
      && (shown.mem && shown.net ==> (l.mem.y > l.net.y <==> options.memBelowNet))
      && (shown.proc && shown.mem ==> (l.proc.x < l.mem.x <==> options.procLeft))
      && (shown.proc && shown.net ==> (l.proc.x < l.net.x <==> options.procLeft))
  {
  }

  /** `h` lines are `percent` of all `lines`, rounded down. */
  predicate RoundedDown(h: int, lines: int, percent: int) {
    100 * h <= percent * lines < 100 * h + 100
  }

  /** The heights of the boxes: cpu 32 in a hundred lines, at least 8; net 28; mem and proc what is left. */
  lemma SharesOfHeight(t: Terminal, shown: Shown, options: Options)
    requires Accepted(t, shown)
    ensures var l := Placed(t, shown, options);
      && (shown == Shown(true, false, false, false) ==> l.cpu.height == t.height)
      && (shown.cpu && (shown.mem || shown.net || shown.proc) ==>
           l.cpu.height >= 8 && (l.cpu.height == 8 || 100 * l.cpu.height - 100 < 32 * t.height)
           && 32 * t.height <= 100 * l.cpu.height)
      && (shown.mem && shown.cpu && shown.net ==> RoundedDown(l.mem.height, t.height, 40))
      && (shown.mem && shown.cpu && !shown.net ==> RoundedDown(l.mem.height, t.height, 68))
      && (shown.mem && !shown.cpu && shown.net ==> RoundedDown(l.mem.height, t.height, 72))
      && (shown.mem && !shown.cpu && !shown.net ==> l.mem.height == t.height)
      && (shown.net && shown.mem && t.height > 22 ==>
           28 * t.height - 100 < 100 * l.net.height < 28 * t.height + 100)
      && (shown.proc ==> l.proc.height == t.height - l.cpu.height)
  {
  }

  /** The widths: mem and net 45 in a hundred columns beside proc, which has the rest; otherwise all of them. */
  lemma SharesOfWidth(t: Terminal, shown: Shown, options: Options)
    requires Accepted(t, shown)
    ensures var l := Placed(t, shown, options);
      && (shown.cpu ==> l.cpu.width == t.width)
      && (shown.mem && shown.net ==> l.mem.width == l.net.width)
      && (shown.mem && shown.proc ==> 100 * l.mem.width - 50 <= 45 * t.width < 100 * l.mem.width + 50)
      && (shown.net && shown.proc ==> 100 * l.net.width - 50 <= 45 * t.width < 100 * l.net.width + 50)
      && (shown.mem && !shown.proc ==> l.mem.width == t.width) && (shown.net && !shown.proc ==> l.net.width == t.width)
      && (shown.proc && shown.mem ==> l.proc.width == t.width - l.mem.width)
      && (shown.proc && shown.net ==> l.proc.width == t.width - l.net.width)
      && (shown.proc && !shown.mem && !shown.net ==> l.proc.width == t.width)
  {
  }

  /** What a terminal must have for all four boxes, and for one of them alone. */
  lemma SmallestTerminals(t: Terminal)
    ensures Accepted(t, Shown(true, true, true, true)) <==> t.width >= 80 && t.height >= 24
    ensures Accepted(t, Shown(true, false, false, false)) <==> t.width >= 60 && t.height >= 8
    ensures Accepted(t, Shown(false, true, false, false)) <==> t.width >= 36 && t.height >= 10
    ensures Accepted(t, Shown(false, false, true, false)) <==> t.width >= 36 && t.height >= 6
    ensures Accepted(t, Shown(false, false, false, true)) <==> t.width >= 44 && t.height >= 16
  {
  }
}
