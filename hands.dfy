/** Hands: the reminder windows of hands.c. Each port keeps its toplevel
    hands and their icon hands in two lists (the C code's doubly linked
    `hands` and `icon_hands`, here sequences; the first element is the list
    head), and remembers its permanent hand, the one hand that is hidden
    instead of destroyed. Window-system calls are left out; the window ids
    they would return are parameters. */
module Hands {

  import opened Wrappers
  import opened CInt
  import Gif
  import Alarms

  /** Number of random candidate positions tried for a new hand (hands.c:17). */
  const NEW_HAND_TRIES: int := 6

  /** Penalty a candidate must beat to be preferred over candidate 0. */
  const PENALTY_THRESHOLD: int := 0x8000

  /** A requested coordinate: explicit, or one of the sentinels
      NEW_HAND_CENTER and NEW_HAND_RANDOM. */
  datatype Coord = At(v: int) | Center | Random

  /** The port argument of new_hand: a port, or NEW_HAND_RANDOM_PORT. */
  datatype PortChoice = OnPort(port: Port) | RandomPort

  /** The first entry of what XGetIconSizes reports. */
  datatype IconSize = IconSize(minWidth: int, minHeight: int, maxWidth: int, maxHeight: int)

  /** The options new hands are created from (`ocurrent`): the screen size
      of the current slideshow and of the icon slideshow, and the beep flag. */
  datatype Options = Options(
    slideshowWidth: int, slideshowHeight: int,
    iconSlideshowWidth: int, iconSlideshowHeight: int,
    beep: bool)

  class Port {
    /** null for a true port; for a slave port, the port whose screen it is
        a rectangle of. */
    const slaveOf: Port?
    const left: int
    const top: int
    const width: int
    const height: int
    const portNumber: int
    var hands: seq<Hand>
    var iconHands: seq<Hand>
    var permanentHand: Hand?
    var iconWidth: int
    var iconHeight: int

    constructor Master(portNumber: int, width: int, height: int)
      ensures slaveOf == null && left == 0 && top == 0
      ensures this.width == width && this.height == height && this.portNumber == portNumber
      ensures hands == [] && iconHands == [] && permanentHand == null
      ensures iconWidth == 0 && iconHeight == 0
    {
      this.left, this.top, this.width, this.height := 0, 0, width, height;
      this.portNumber := portNumber;
      hands, iconHands, permanentHand := [], [], null;
      slaveOf := null;
      iconWidth, iconHeight := 0, 0;
    }

    constructor Slave(master: Port, left: int, top: int, width: int, height: int)
      requires master.slaveOf == null
      ensures slaveOf == master && this.left == left && this.top == top
      ensures this.width == width && this.height == height
      ensures portNumber == master.portNumber
      ensures hands == [] && iconHands == [] && permanentHand == null
      ensures iconWidth == 0 && iconHeight == 0
    {
      slaveOf := master;
      this.left, this.top, this.width, this.height := left, top, width, height;
      portNumber := master.portNumber;
      hands, iconHands, permanentHand := [], [], null;
      iconWidth, iconHeight := 0, 0;
    }

    /** C's `port->master`: a true port is its own master. */
    function MasterPort(): Port
    {
      if slaveOf == null then this else slaveOf
    }

    /** The list invariant of the port's two lists (see ListsValid). */
    ghost predicate Valid()
      reads this`hands, this`iconHands, this`permanentHand, hands`icon, iconHands`icon
    {
      ListsValid(this, hands, iconHands, permanentHand)
    }
  }

  /** The list invariant of a port with hand list hs, icon list ics and
      permanent hand ph: both lists without repetition, every hand on the
      port, every toplevel hand's icon in the icon list and pointing back at
      it, the permanent hand in the list and the only hand marked permanent. */
  ghost predicate ListsValid(port: Port, hs: seq<Hand>, ics: seq<Hand>, ph: Hand?)
    reads hs`icon, ics`icon
  {
    Unique(hs) && Unique(ics) && HandsLinked(port, hs, ics, ph) && IconsLinked(port, hs, ics)
      && (ph != null ==> ph in hs && ph.permanent && ph.icon != null)
  }

  /** No hand occurs twice. */
  ghost predicate Unique(hs: seq<Hand>) {
    forall i, j :: 0 <= i < j < |hs| ==> hs[i] != hs[j]
  }

  /** Every hand of hs is a toplevel-or-subwindow hand of the port whose
      icon, if any, is in ics and points back; only ph is permanent. */
  ghost predicate HandsLinked(port: Port, hs: seq<Hand>, ics: seq<Hand>, ph: Hand?)
    reads hs`icon, ics`icon
  {
    forall h :: h in hs ==>
      h.port == port && !h.isIcon &&
      (h.icon != null ==> h.icon in ics && h.icon.icon == h) &&
      (h.permanent ==> h == ph)
  }

  /** Every icon hand of ics is on the port and belongs to a hand of hs
      that points back at it. */
  ghost predicate IconsLinked(port: Port, hs: seq<Hand>, ics: seq<Hand>)
    reads hs`icon, ics`icon
  {
    forall ih :: ih in ics ==>
      ih.port == port && ih.isIcon && ih.icon != null &&
      ih.icon in hs && ih.icon.icon == ih
  }

  /** Linking a new hand and its icon hand at the heads of valid lists
      keeps them valid. */
  lemma LinkValid(port: Port, hs: seq<Hand>, ics: seq<Hand>, ph: Hand?, nh: Hand, ni: Hand)
    requires ListsValid(port, hs, ics, ph)
    requires nh !in hs && ni !in ics
    requires nh.port == port && ni.port == port && !nh.isIcon && ni.isIcon
    requires nh.icon == ni && ni.icon == nh
    requires nh.permanent <==> ph == null
    ensures ListsValid(port, [nh] + hs, [ni] + ics, if ph == null then nh else ph)
  {
    ConsDistinct(nh, hs);
    ConsDistinct(ni, ics);
  }

  class Hand {
    const port: Port
    var icon: Hand?
    /** The window id. */
    var w: int
    var x: int
    var y: int
    var width: int
    var height: int
    var rootChild: int
    const isIcon: bool
    var mapped: bool
    var withdrawn: bool
    var configured: bool
    var clock: bool
    const permanent: bool
    var toplevel: bool
    var slideshow: Gif.Stream?
    var slide: int
    var loopcount: int

    /** A hand as new_hand and new_hand_subwindow fill it in: not mapped,
        not withdrawn, not configured, no slideshow and no clock. The C code
        leaves `slide` and `loopcount` uninitialised; they are read only
        once a slideshow is set, which assigns them, so 0 stands in here. */
    constructor (port: Port, w: int, x: int, y: int, width: int, height: int,
                 rootChild: int, isIcon: bool, permanent: bool, toplevel: bool)
      ensures this.port == port && this.w == w && this.x == x && this.y == y
      ensures this.width == width && this.height == height && this.rootChild == rootChild
      ensures this.isIcon == isIcon && this.permanent == permanent && this.toplevel == toplevel
      ensures icon == null && Unshown() && slide == 0 && loopcount == 0
    {
      this.port, this.w, this.x, this.y := port, w, x, y;
      this.width, this.height, this.rootChild := width, height, rootChild;
      this.isIcon, this.permanent, this.toplevel := isIcon, permanent, toplevel;
      icon, mapped, withdrawn, configured, clock := null, false, false, false, false;
      slideshow, slide, loopcount := null, 0, 0;
    }

    /** The state new_hand and new_hand_subwindow leave a hand in: not
        mapped, not withdrawn, not configured, no slideshow and no clock. */
    predicate Unshown()
      reads this`mapped, this`withdrawn, this`configured, this`slideshow, this`clock
    {
      !mapped && !withdrawn && !configured && slideshow == null && !clock
    }
  }

  // ---------------------------------------------------------------------
  // Icon size

  /** The clamp of get_icon_size: raise to the minimum first, then lower to
      the maximum (so the maximum wins when the two conflict). */
  function ClampIcon(v: int, lo: int, hi: int): (r: int)
    ensures r <= hi
    ensures lo <= hi ==> lo <= r
    ensures lo <= v <= hi ==> r == v
    ensures v < lo && lo <= hi ==> r == lo
    ensures v > hi ==> r == hi
  {
    var raised := if v < lo then lo else v;
    if raised > hi then hi else raised
  }

  /** get_icon_size: the port's icon size is the icon slideshow's screen
      size, clamped to the first size hint the window manager reports. */
  method GetIconSize(port: Port, opts: Options, sizes: Option<IconSize>)
    modifies port`iconWidth, port`iconHeight
    ensures old(port.Valid()) ==> port.Valid()
    ensures sizes.None? ==>
      port.iconWidth == opts.iconSlideshowWidth && port.iconHeight == opts.iconSlideshowHeight
    ensures sizes.Some? ==>
      port.iconWidth == ClampIcon(opts.iconSlideshowWidth, sizes.value.minWidth, sizes.value.maxWidth) &&
      port.iconHeight == ClampIcon(opts.iconSlideshowHeight, sizes.value.minHeight, sizes.value.maxHeight)
  {
    var w, h := opts.iconSlideshowWidth, opts.iconSlideshowHeight;
    if sizes.Some? {
      var ic := sizes.value;
      if w < ic.minWidth { w := ic.minWidth; }
      if h < ic.minHeight { h := ic.minHeight; }
      if w > ic.maxWidth { w := ic.maxWidth; }
      if h > ic.maxHeight { h := ic.maxHeight; }
    }
    port.iconWidth, port.iconHeight := w, h;
  }

  // ---------------------------------------------------------------------
  // Placement

  function Min(a: int, b: int): int { if a < b then a else b }
  function Max(a: int, b: int): int { if a > b then a else b }

  /** The area by which the rectangle [x1, x2) x [y1, y2) overlaps hand h,
      counted only when h is mapped and the overlap is positive on both axes. */
  function Overlap(h: Hand, x1: int, y1: int, x2: int, y2: int): (a: int)
    reads h
    ensures a >= 0
    ensures a > 0 <==>
      (h.mapped && Min(x2, h.x + h.width) > Max(x1, h.x) && Min(y2, h.y + h.height) > Max(y1, h.y))
  {
    var overw := Min(x2, h.x + h.width) - Max(x1, h.x);
    var overh := Min(y2, h.y + h.height) - Max(y1, h.y);
    if h.mapped && overw > 0 && overh > 0 then overw * overh else 0
  }

  /** The total overlap of a width x height window at (x, y) with the hands hs. */
  function Penalty(hs: seq<Hand>, x: int, y: int, width: int, height: int): (p: int)
    reads hs
    ensures p >= 0
    decreases |hs|
  {
    if hs == [] then 0
    else Penalty(hs[..|hs| - 1], x, y, width, height)
         + Overlap(hs[|hs| - 1], x, y, x + width, y + height)
  }

  /** A candidate with no overlapping mapped hand has penalty 0. */
  lemma {:induction false} PenaltyZero(hs: seq<Hand>, x: int, y: int, width: int, height: int)
    requires forall h :: h in hs ==> Overlap(h, x, y, x + width, y + height) == 0
    ensures Penalty(hs, x, y, width, height) == 0
    decreases |hs|
  {
    if hs != [] {
      var front := hs[..|hs| - 1];
      assert forall h :: h in front ==> h in hs;
      PenaltyZero(front, x, y, width, height);
      assert hs[|hs| - 1] in hs;
    }
  }

  /** The penalties of all candidates, as get_best_position computes them in
      an unsigned int (so modulo 2^32). */
  function Penalties(hs: seq<Hand>, xs: seq<int>, ys: seq<int>, width: int, height: int): (ps: seq<int>)
    requires |xs| == |ys|
    reads hs
    ensures |ps| == |xs|
    ensures forall i :: 0 <= i < |xs| ==> ps[i] == U32(Penalty(hs, xs[i], ys[i], width, height))
  {
    seq(|xs|, i requires 0 <= i < |xs| reads hs => U32(Penalty(hs, xs[i], ys[i], width, height)))
  }

  /** The state (best penalty, best index) of get_best_position's scan after
      the candidates ps: a candidate replaces the best only when strictly
      smaller, starting from the threshold 0x8000 and index 0. */
  function Scan(ps: seq<int>): (r: (int, int))
    decreases |ps|
  {
    if ps == [] then (PENALTY_THRESHOLD, 0)
    else
      var (bp, b) := Scan(ps[..|ps| - 1]);
      if ps[|ps| - 1] < bp then (ps[|ps| - 1], |ps| - 1) else (bp, b)
  }

  /** What the scan selects: if some candidate scores below 0x8000, the
      earliest candidate of minimal penalty; otherwise candidate 0. */
  lemma {:induction false} ScanSelects(ps: seq<int>)
    ensures var (bp, b) := Scan(ps);
      && bp <= PENALTY_THRESHOLD
      && 0 <= b && (b < |ps| || b == 0)
      && (forall i :: 0 <= i < |ps| ==> bp <= ps[i])
      && (forall i :: 0 <= i < b ==> ps[i] > bp)
      && (if exists i :: 0 <= i < |ps| && ps[i] < PENALTY_THRESHOLD
          then 0 <= b < |ps| && ps[b] == bp
          else b == 0 && bp == PENALTY_THRESHOLD)
    decreases |ps|
  {
    if ps != [] {
      var front := ps[..|ps| - 1];
      ScanSelects(front);
      assert forall i :: 0 <= i < |front| ==> front[i] == ps[i];
    }
  }

  /** The overlap-minimising choice among the candidates (xs[i], ys[i]). */
  function BestPosition(hs: seq<Hand>, xs: seq<int>, ys: seq<int>, width: int, height: int): (r: int)
    requires |xs| == |ys| > 0
    reads hs
    ensures 0 <= r < |xs|
  {
    ScanSelects(Penalties(hs, xs, ys, width, height));
    Scan(Penalties(hs, xs, ys, width, height)).1
  }

  lemma U32Add(a: int, b: int)
    ensures U32(U32(a) + b) == U32(a + b)
  {
    var q := a / U32_MODULUS;
    assert a == q * U32_MODULUS + U32(a);
    assert U32(a) + b == (a + b) - q * U32_MODULUS;
  }

  /** One more hand adds its overlap to the unsigned running sum. */
  lemma PenaltyStep(hs: seq<Hand>, k: int, x: int, y: int, width: int, height: int)
    requires 0 <= k < |hs|
    ensures U32(U32(Penalty(hs[..k], x, y, width, height)) + Overlap(hs[k], x, y, x + width, y + height))
         == U32(Penalty(hs[..k + 1], x, y, width, height))
  {
    assert hs[..k + 1][..k] == hs[..k];
    U32Add(Penalty(hs[..k], x, y, width, height), Overlap(hs[k], x, y, x + width, y + height));
  }

  /** The inner loop of get_best_position: the unsigned sum, over the
      mapped hands of the list, of the overlap with one candidate. */
  method CandidatePenalty(hs: seq<Hand>, x1: int, y1: int, width: int, height: int)
    returns (penalty: int)
    ensures penalty == U32(Penalty(hs, x1, y1, width, height))
  {
    var x2, y2 := x1 + width, y1 + height;
    penalty := 0;
    var k := 0;
    while k < |hs|
      invariant 0 <= k <= |hs|
      invariant penalty == U32(Penalty(hs[..k], x1, y1, width, height))
    {
      var h := hs[k];
      PenaltyStep(hs, k, x1, y1, width, height);
      ghost var next := U32(Penalty(hs[..k + 1], x1, y1, width, height));
      if h.mapped {
        var overw := Min(x2, h.x + h.width) - Max(x1, h.x);
        var overh := Min(y2, h.y + h.height) - Max(y1, h.y);
        if overw > 0 && overh > 0 {
          penalty := U32(penalty + overw * overh);
        } else {
          assert Overlap(h, x1, y1, x2, y2) == 0;
        }
      } else {
        assert Overlap(h, x1, y1, x2, y2) == 0;
      }
      assert penalty == next;
      k := k + 1;
    }
    assert hs[..k] == hs;
  }

  /** get_best_position: the candidate of least penalty against the mapped
      hands of the (master) port, the first strictly better one winning. */
  method GetBestPosition(port: Port, xs: seq<int>, ys: seq<int>, width: int, height: int)
    returns (x: int, y: int)
    requires |xs| == |ys| > 0
    ensures var b := old(BestPosition(port.hands, xs, ys, width, height)); x == xs[b] && y == ys[b]
  {
    ghost var ps := Penalties(port.hands, xs, ys, width, height);
    var bestPenalty, best := PENALTY_THRESHOLD, 0;
    var i := 0;
    while i < |xs|
      invariant 0 <= i <= |xs|
      invariant 0 <= best < |xs|
      invariant (bestPenalty, best) == Scan(ps[..i])
    {
      var penalty := CandidatePenalty(port.hands, xs[i], ys[i], width, height);
      assert ps[..i + 1][..i] == ps[..i];
      if penalty < bestPenalty {
        bestPenalty, best := penalty, i;
      }
      i := i + 1;
    }
    assert ps[..i] == ps;
    x, y := xs[best], ys[best];
  }

  /** The chosen candidate has the least (unsigned) penalty of all, and no
      earlier candidate ties with it, as long as some candidate scores below
      the threshold; otherwise candidate 0 is chosen. */
  lemma BestPositionMinimal(hs: seq<Hand>, xs: seq<int>, ys: seq<int>, width: int, height: int)
    requires |xs| == |ys| > 0
    ensures var ps := Penalties(hs, xs, ys, width, height);
      var b := BestPosition(hs, xs, ys, width, height);
      && ((exists i :: 0 <= i < |ps| && ps[i] < PENALTY_THRESHOLD) ==>
            (forall j :: 0 <= j < |ps| ==> ps[b] <= ps[j]) &&
            (forall j :: 0 <= j < b ==> ps[j] > ps[b]))
      && ((forall i :: 0 <= i < |ps| ==> ps[i] >= PENALTY_THRESHOLD) ==> b == 0)
  {
    ScanSelects(Penalties(hs, xs, ys, width, height));
  }

  // ---------------------------------------------------------------------
  // Creation

  /** The slave port new_hand works on: the given one, or the port that
      NEW_HAND_RANDOM_PORT picks with `ports[(rand() >> 4) % nports]`. */
  function ChosenPort(choice: PortChoice, ports: seq<Port>, portRand: nat): (p: Port)
    requires choice.RandomPort? ==> |ports| > 0
    ensures choice.OnPort? ==> p == choice.port
    ensures choice.RandomPort? ==> p in ports
  {
    if choice.OnPort? then choice.port else ports[(portRand / 16) % |ports|]
  }

  /** A NEW_HAND_CENTER coordinate: the window centred in the extent, with
      C's truncating division. */
  function Centered(origin: int, extent: int, size: int): (c: int)
    ensures extent >= size ==> origin <= c && c + size <= origin + extent
    ensures extent >= size ==> (c - origin) * 2 <= extent - size < (c - origin) * 2 + 2
    ensures extent < size ==> origin + extent - size <= c <= origin
  {
    TruncDivMod(extent - size, 2);
    origin + TruncDiv(extent - size, 2)
  }

  /** The coordinate an axis has before the random search: explicit or centred. */
  function Fixed(c: Coord, origin: int, extent: int, size: int): int {
    match c
    case At(v) => v
    case Center => Centered(origin, extent, size)
    case Random => 0
  }

  /** The candidates of one axis: for a random axis `origin + (r >> 4) % dist`
      for each random value r, otherwise the fixed coordinate everywhere. */
  function Candidates(random: bool, origin: int, dist: int, fixed: int, rands: seq<nat>): (cs: seq<int>)
    requires random ==> dist != 0
    ensures |cs| == |rands|
    ensures !random ==> forall i :: 0 <= i < |cs| ==> cs[i] == fixed
    ensures random ==> forall i :: 0 <= i < |cs| ==>
      origin <= cs[i] < origin + (if dist < 0 then -dist else dist)
  {
    seq(|rands|, i requires 0 <= i < |rands| =>
      if random then (TruncDivMod(rands[i] / 16, dist); origin + TruncMod(rands[i] / 16, dist))
      else fixed)
  }

  /** Whether the requested position leaves the random axis a range to draw
      from (C's `% xdist` needs `xdist != 0`). */
  predicate Drawable(slave: Port, x: Coord, y: Coord, width: int, height: int)
  {
    (x.Random? ==> slave.width != width) && (y.Random? ==> slave.height != height)
  }

  /** Where new_hand puts a width x height window on the slave port, given
      the hands already on the master port and the random values it draws:
      an explicit or centred coordinate stays as it is; if either axis is
      random, six candidates are drawn and the one of least overlap wins. */
  function NewPosition(slave: Port, hs: seq<Hand>, x: Coord, y: Coord, width: int, height: int,
                       xRands: seq<nat>, yRands: seq<nat>): (int, int)
    requires |xRands| == NEW_HAND_TRIES && |yRands| == NEW_HAND_TRIES
    requires Drawable(slave, x, y, width, height)
    reads slave, hs
  {
    var fx := Fixed(x, slave.left, slave.width, width);
    var fy := Fixed(y, slave.top, slave.height, height);
    if x.Random? || y.Random? then
      var xs := Candidates(x.Random?, slave.left, slave.width - width, fx, xRands);
      var ys := Candidates(y.Random?, slave.top, slave.height - height, fy, yRands);
      var b := BestPosition(hs, xs, ys, width, height);
      (xs[b], ys[b])
    else (fx, fy)
  }

  /** What new_hand's placement guarantees: explicit and centred axes are
      kept, a random axis lands within its range, and a searched position is
      one of the drawn candidates. */
  lemma NewPositionSpec(slave: Port, hs: seq<Hand>, x: Coord, y: Coord, width: int, height: int,
                        xRands: seq<nat>, yRands: seq<nat>)
    requires |xRands| == NEW_HAND_TRIES && |yRands| == NEW_HAND_TRIES
    requires Drawable(slave, x, y, width, height)
    ensures !x.Random? ==> NewPosition(slave, hs, x, y, width, height, xRands, yRands).0 == Fixed(x, slave.left, slave.width, width)
    ensures !y.Random? ==> NewPosition(slave, hs, x, y, width, height, xRands, yRands).1 == Fixed(y, slave.top, slave.height, height)
    ensures var d := slave.width - width;
      x.Random? ==> slave.left <= NewPosition(slave, hs, x, y, width, height, xRands, yRands).0 < slave.left + (if d < 0 then -d else d)
    ensures var d := slave.height - height;
      y.Random? ==> slave.top <= NewPosition(slave, hs, x, y, width, height, xRands, yRands).1 < slave.top + (if d < 0 then -d else d)
    ensures x.Random? || y.Random? ==>
      var xs := Candidates(x.Random?, slave.left, slave.width - width, Fixed(x, slave.left, slave.width, width), xRands);
      var ys := Candidates(y.Random?, slave.top, slave.height - height, Fixed(y, slave.top, slave.height, height), yRands);
      exists i :: 0 <= i < NEW_HAND_TRIES && NewPosition(slave, hs, x, y, width, height, xRands, yRands) == (xs[i], ys[i])
  {
  }


  /** The placement step of new_hand. */
  method PlaceHand(slave: Port, port: Port, x: Coord, y: Coord, width: int, height: int,
                   xRands: seq<nat>, yRands: seq<nat>)
    returns (nx: int, ny: int)
    requires |xRands| == NEW_HAND_TRIES && |yRands| == NEW_HAND_TRIES
    requires Drawable(slave, x, y, width, height)
    ensures (nx, ny) == old(NewPosition(slave, port.hands, x, y, width, height, xRands, yRands))
  {
    nx := Fixed(x, slave.left, slave.width, width);
    ny := Fixed(y, slave.top, slave.height, height);
    if x.Random? || y.Random? {
      var xs := Candidates(x.Random?, slave.left, slave.width - width, nx, xRands);
      var ys := Candidates(y.Random?, slave.top, slave.height - height, ny, yRands);
      nx, ny := GetBestPosition(port, xs, ys, width, height);
    }
  }

  /** Inserting a hand at the head of a list of distinct hands keeps it
      distinct when the hand is new. */
  lemma ConsDistinct(h: Hand, hs: seq<Hand>)
    requires h !in hs
    requires Unique(hs)
    ensures Unique([h] + hs)
  {
    forall i, j | 0 <= i < j < |[h] + hs|
      ensures ([h] + hs)[i] != ([h] + hs)[j]
    {
      if i > 0 {
        assert ([h] + hs)[i] == hs[i - 1] && ([h] + hs)[j] == hs[j - 1];
      } else {
        assert ([h] + hs)[j] == hs[j - 1];
      }
    }
  }

  /** The link updates at the end of new_hand: the hand and its icon
      hand point at each other, the hand goes to the head of the hand list,
      its icon to the head of the icon list, and the hand becomes the
      permanent hand if the port had none. */
  method LinkHand(port: Port, nh: Hand, nhIcon: Hand)
    requires port.Valid()
    requires nh !in port.hands && nhIcon !in port.iconHands && nh != nhIcon
    requires nh.port == port && nhIcon.port == port && !nh.isIcon && nhIcon.isIcon
    requires nh.permanent <==> port.permanentHand == null
    modifies port`hands, port`iconHands, port`permanentHand, nh`icon, nhIcon`icon
    ensures nh.icon == nhIcon && nhIcon.icon == nh
    ensures port.hands == [nh] + old(port.hands) && port.iconHands == [nhIcon] + old(port.iconHands)
    ensures port.permanentHand == if old(port.permanentHand) == null then nh else old(port.permanentHand)
    ensures port.Valid()
  {
    ghost var hs, ics, ph := port.hands, port.iconHands, port.permanentHand;
    nh.icon := nhIcon;
    nhIcon.icon := nh;
    LinkValid(port, hs, ics, ph, nh, nhIcon);
    if nh.permanent {
      port.permanentHand := nh;
    }
    port.hands := [nh] + port.hands;
    port.iconHands := [nhIcon] + port.iconHands;
  }

  /** The part of new_hand after placement and the icon size: the new hand
      and its icon hand, linked into the port's lists, and the bell. The
      hand is the port's permanent hand if the port had none. */
  method AttachHand(port: Port, nx: int, ny: int, opts: Options, win: int, iconWin: int)
    returns (nh: Hand, beeped: bool)
    requires port.Valid()
    modifies port`hands, port`iconHands, port`permanentHand
    ensures && fresh(nh) && fresh(nh.icon) && nh.icon != null
      && port.Valid()
      && port.hands == [nh] + old(port.hands)
      && port.iconHands == [nh.icon] + old(port.iconHands)
      && (nh.permanent <==> old(port.permanentHand) == null)
      && port.permanentHand == (if old(port.permanentHand) == null then nh else old(port.permanentHand))
      && beeped == (old(port.hands) != [] && opts.beep)
    ensures && nh.port == port && nh.icon.port == port && nh.icon.icon == nh
      && nh.x == nx && nh.y == ny
      && nh.w == win && nh.rootChild == win && nh.icon.w == iconWin && nh.icon.rootChild == win
      && nh.width == opts.slideshowWidth && nh.height == opts.slideshowHeight
      && nh.icon.width == 0 && nh.icon.height == 0
      && !nh.isIcon && nh.toplevel && nh.icon.isIcon && nh.icon.toplevel && !nh.icon.permanent
      && nh.Unshown() && nh.icon.Unshown()
  {
    var permanent := port.permanentHand == null;
    beeped := port.hands != [] && opts.beep;
    nh := new Hand(port, win, nx, ny, opts.slideshowWidth, opts.slideshowHeight, win, false, permanent, true);
    var nhIcon := new Hand(port, iconWin, 0, 0, 0, 0, win, true, false, true);
    LinkHand(port, nh, nhIcon);
  }

  /** new_hand for the slave port `slave`: for NEW_HAND_RANDOM_PORT the
      caller passes the port ChosenPort picks (hands.c:125-126 makes that
      choice before anything else). A toplevel hand and its icon hand on the
      master of that port, placed explicitly, centred or by the random
      search, and linked at the head of the port's two lists. The first
      hand of a port becomes its permanent hand. `beeped` says whether the
      bell rings. */
  method NewHand(slave: Port, x: Coord, y: Coord, opts: Options, sizes: Option<IconSize>,
                 xRands: seq<nat>, yRands: seq<nat>, win: int, iconWin: int)
    returns (nh: Hand, beeped: bool)
    requires |xRands| == NEW_HAND_TRIES && |yRands| == NEW_HAND_TRIES
    requires slave.MasterPort().Valid()
    requires Drawable(slave, x, y, opts.slideshowWidth, opts.slideshowHeight)
    modifies slave.MasterPort()
    ensures var port := slave.MasterPort();
      && fresh(nh) && fresh(nh.icon) && nh.icon != null
      && port.Valid()
      && port.hands == [nh] + old(port.hands)
      && port.iconHands == [nh.icon] + old(port.iconHands)
      && (nh.permanent <==> old(port.permanentHand) == null)
      && port.permanentHand == (if old(port.permanentHand) == null then nh else old(port.permanentHand))
      && beeped == (old(port.hands) != [] && opts.beep)
    ensures var port := slave.MasterPort();
      && nh.port == port && nh.icon.port == port && nh.icon.icon == nh
      && nh.w == win && nh.rootChild == win && nh.icon.w == iconWin && nh.icon.rootChild == win
      && nh.width == opts.slideshowWidth && nh.height == opts.slideshowHeight
      && nh.icon.width == 0 && nh.icon.height == 0
      && !nh.isIcon && nh.toplevel && nh.icon.isIcon && nh.icon.toplevel && !nh.icon.permanent
      && nh.Unshown() && nh.icon.Unshown()
    ensures (nh.x, nh.y) == old(NewPosition(slave, slave.MasterPort().hands, x, y,
      opts.slideshowWidth, opts.slideshowHeight, xRands, yRands))
    ensures var port := slave.MasterPort();
      if old(port.iconWidth) == 0 then
        (sizes.None? ==>
          port.iconWidth == opts.iconSlideshowWidth && port.iconHeight == opts.iconSlideshowHeight) &&
        (sizes.Some? ==>
          port.iconWidth == ClampIcon(opts.iconSlideshowWidth, sizes.value.minWidth, sizes.value.maxWidth) &&
          port.iconHeight == ClampIcon(opts.iconSlideshowHeight, sizes.value.minHeight, sizes.value.maxHeight))
      else port.iconWidth == old(port.iconWidth) && port.iconHeight == old(port.iconHeight)
  {
    var port := slave.MasterPort();
    var nx, ny := PlaceHand(slave, port, x, y, opts.slideshowWidth, opts.slideshowHeight, xRands, yRands);
    if port.iconWidth == 0 {
      GetIconSize(port, opts, sizes);
    }
    nh, beeped := AttachHand(port, nx, ny, opts, win, iconWin);
  }

  /** A coordinate of new_hand_subwindow: centred as `(parent - size) / 2`,
      or random as `(r >> 4) % (parent - size)`, both in unsigned arithmetic
      and stored back into an int. */
  function SubwindowCoord(c: Coord, parent: int, size: int, rand: nat): (v: int)
    requires c.Random? ==> U32(parent - size) != 0
    requires rand < 0x8000_0000
    ensures c.At? ==> v == c.v
    ensures c.Center? && 0 <= size <= parent < U32_MODULUS ==> 0 <= v && v * 2 <= parent - size < v * 2 + 2
    ensures c.Random? && 0 <= size < parent < 0x8000_0000 ==> 0 <= v < parent - size
  {
    match c
    case At(v) => v
    case Center => U32(parent - size) / 2
    case Random => I32(U32(rand / 16) % U32(parent - size))
  }

  /** new_hand_subwindow: one hand, without icon and not toplevel, inside a
      parent window of the given (unsigned) size, linked at the head of the
      master port's list. Centring and the random offset use unsigned
      arithmetic, as `parent_width - width` is unsigned in C. */
  method NewHandSubwindow(port: Port, parentWidth: int, parentHeight: int, x: Coord, y: Coord,
                          opts: Options, xRand: nat, yRand: nat, win: int)
    returns (nh: Hand)
    requires 0 <= xRand < 0x8000_0000 && 0 <= yRand < 0x8000_0000
    requires x.Random? ==> U32(parentWidth - opts.slideshowWidth) != 0
    requires y.Random? ==> U32(parentHeight - opts.slideshowHeight) != 0
    requires port.MasterPort().Valid()
    modifies port.MasterPort()`hands
    ensures var master := port.MasterPort();
      && fresh(nh) && master.Valid()
      && master.hands == [nh] + old(master.hands)
      && nh.port == master && nh.icon == null && !nh.permanent && !nh.toplevel && !nh.isIcon
      && nh.w == win && nh.rootChild == win
      && nh.width == opts.slideshowWidth && nh.height == opts.slideshowHeight
      && nh.Unshown()
      && nh.x == SubwindowCoord(x, parentWidth, opts.slideshowWidth, xRand)
      && nh.y == SubwindowCoord(y, parentHeight, opts.slideshowHeight, yRand)
  {
    var master := port.MasterPort();
    var width, height := opts.slideshowWidth, opts.slideshowHeight;
    var nx := SubwindowCoord(x, parentWidth, width, xRand);
    var ny := SubwindowCoord(y, parentHeight, height, yRand);
    nh := new Hand(master, win, nx, ny, width, height, win, false, false, false);
    ConsDistinct(nh, master.hands);
    master.hands := [nh] + master.hands;
  }
}
