/** Showing hands in hands.c: drawing the current frame of a hand from the
    per-port render cache, mapping a hand (again), and finding a hand to
    show on a port. */
module HandShow {

  import opened Wrappers
  import opened Hands
  import Gif

  // ---------------------------------------------------------------------
  // draw_slide

  /** The frame a hand shows, if its slide index is a frame of its slideshow. */
  function FrameOf(h: Hand): (img: Gif.Image?)
    reads h, h.slideshow
    ensures img != null ==> h.slideshow != null && 0 <= h.slide < |h.slideshow.images|
    ensures img != null ==> img == h.slideshow.images[h.slide]
  {
    if h.slideshow != null && 0 <= h.slide < |h.slideshow.images| then h.slideshow.images[h.slide] else null
  }

  /** The render cache the hand's current frame points to through its
      `user_data`, if any. */
  function CacheOf(h: Hand): (pl: Gif.PictureList?)
    reads h, h.slideshow, FrameOf(h)
    ensures pl != null ==> FrameOf(h) != null && FrameOf(h).userData == Gif.Listed(pl)
  {
    var img := FrameOf(h);
    if img != null && img.userData.Listed? then img.userData.list else null
  }

  /** What draw_slide dereferences for a hand with a slideshow: the current
      frame exists, its `user_data` is a render cache, and the cache has a
      slot for this frame on the hand's port. */
  predicate SlotReady(h: Hand)
    reads h, h.slideshow, FrameOf(h), h.port, CacheOf(h)
  {
    h.slideshow != null ==>
      CacheOf(h) != null && 0 <= h.port.portNumber < |CacheOf(h).frames|
      && 0 <= h.slide < |CacheOf(h).frames[h.port.portNumber]|
  }

  /** The lazy cache fill: slot (n, i) gets the freshly rendered pixmap if it
      is still 0 (not rendered), and keeps its pixmap otherwise. */
  function Cached(frames: seq<seq<int>>, n: int, i: int, rendered: int): (r: seq<seq<int>>)
    requires 0 <= n < |frames| && 0 <= i < |frames[n]|
    ensures |r| == |frames| && |r[n]| == |frames[n]|
    ensures frames[n][i] == 0 ==> r[n][i] == rendered
    ensures frames[n][i] != 0 ==> r[n][i] == frames[n][i]
    ensures forall m :: 0 <= m < |frames| && m != n ==> r[m] == frames[m]
    ensures forall j :: 0 <= j < |frames[n]| && j != i ==> r[n][j] == frames[n][j]
  {
    if frames[n][i] == 0 then frames[n := frames[n][i := rendered]] else frames
  }

  /** A slot that holds a pixmap is never rendered again. */
  lemma CachedHit(frames: seq<seq<int>>, n: int, i: int, rendered: int)
    requires 0 <= n < |frames| && 0 <= i < |frames[n]| && frames[n][i] != 0
    ensures Cached(frames, n, i, rendered) == frames
  {
  }

  /** Drawing the same frame twice renders it at most once: once the first
      rendering produced a pixmap, the second fill changes nothing. */
  lemma CachedTwice(frames: seq<seq<int>>, n: int, i: int, first: int, second: int)
    requires 0 <= n < |frames| && 0 <= i < |frames[n]| && first != 0
    ensures Cached(Cached(frames, n, i, first), n, i, second) == Cached(frames, n, i, first)
  {
    CachedHit(Cached(frames, n, i, first), n, i, second);
  }

  /** draw_slide: nothing for a missing hand or a hand without slideshow;
      otherwise the frame's slot on the hand's port is rendered if it is
      still empty (`rendered` is what the renderer produces) and the slot's
      pixmap becomes the window background. */
  method DrawSlide(h: Hand?, rendered: int) returns (background: Option<int>)
    requires h != null ==> SlotReady(h)
    modifies (if h == null then {} else {CacheOf(h)})`frames
    ensures h == null || h.slideshow == null ==> background == None
    ensures h != null && h.slideshow != null ==>
      var pl, n := CacheOf(h), h.port.portNumber;
      && pl.frames == Cached(old(pl.frames), n, h.slide, rendered)
      && background == Some(pl.frames[n][h.slide])
  {
    if h == null || h.slideshow == null {
      return None;
    }
    var gfi := h.slideshow.images[h.slide];
    var pl := gfi.userData.list;
    var n := h.port.portNumber;
    if pl.frames[n][h.slide] == 0 {
      pl.frames := pl.frames[n := pl.frames[n][h.slide := rendered]];
    }
    background := Some(pl.frames[n][h.slide]);
  }

  // ---------------------------------------------------------------------
  // hand_map_raised

  /** hand_map_raised: a withdrawn hand gets its all-desktops property back
      (`reasserted`) and stops being withdrawn; then the window is mapped
      and raised, which sets no flag of the hand. */
  method HandMapRaised(h: Hand) returns (reasserted: bool)
    modifies h`withdrawn
    ensures !h.withdrawn
    ensures reasserted == old(h.withdrawn)
  {
    reasserted := h.withdrawn;
    if h.withdrawn {
      h.withdrawn := false;
    }
  }

  /** The last step of find_one_hand: a hand that should be mapped and is
      not is mapped and raised. Only its withdrawn flag can change, so the
      port's lists stay valid. */
  method RaiseIfWanted(port: Port, r: Hand, mapped: bool)
    requires port.Valid()
    modifies r`withdrawn
    ensures port.Valid()
    ensures mapped ==> r.mapped || !r.withdrawn
    ensures !(mapped && !r.mapped) ==> r.withdrawn == old(r.withdrawn)
  {
    if mapped && !r.mapped {
      var reasserted := HandMapRaised(r);
    }
  }

  // ---------------------------------------------------------------------
  // find_one_hand

  /** The hand's position lies in the slave port's rectangle
      [left, left + width) x [top, top + height). */
  predicate InRect(h: Hand, slave: Port)
    reads h
  {
    slave.left <= h.x < slave.left + slave.width && slave.top <= h.y < slave.top + slave.height
  }

  /** The index of the first mapped hand of hs, or |hs| if there is none. */
  function FirstMapped(hs: seq<Hand>): (k: int)
    reads hs
    ensures 0 <= k <= |hs|
    ensures k < |hs| ==> hs[k].mapped
    ensures forall j :: 0 <= j < k ==> !hs[j].mapped
    decreases |hs|
  {
    if hs == [] then 0 else if hs[0].mapped then 0 else 1 + FirstMapped(hs[1..])
  }

  /** The index of the first mapped hand of hs inside the slave's
      rectangle, or |hs| if there is none. */
  function FirstMappedIn(hs: seq<Hand>, slave: Port): (k: int)
    reads hs
    ensures 0 <= k <= |hs|
    ensures k < |hs| ==> InRect(hs[k], slave) && hs[k].mapped
    ensures forall j :: 0 <= j < k ==> !(InRect(hs[j], slave) && hs[j].mapped)
    decreases |hs|
  {
    if hs == [] then 0
    else if InRect(hs[0], slave) && hs[0].mapped then 0
    else 1 + FirstMappedIn(hs[1..], slave)
  }

  /** The index of the last hand of hs inside the slave's rectangle, or -1
      if there is none. */
  function LastIn(hs: seq<Hand>, slave: Port): (k: int)
    reads hs
    ensures -1 <= k < |hs|
    ensures k >= 0 ==> InRect(hs[k], slave)
    ensures forall j :: k < j < |hs| ==> !InRect(hs[j], slave)
    decreases |hs|
  {
    if hs == [] then -1
    else if InRect(hs[|hs| - 1], slave) then |hs| - 1
    else LastIn(hs[..|hs| - 1], slave)
  }

  /** The first index with a mapped hand inside the rectangle, once every
      earlier hand is known to fail. */
  lemma FirstMappedInAt(hs: seq<Hand>, slave: Port, k: int)
    requires 0 <= k < |hs| && InRect(hs[k], slave) && hs[k].mapped
    requires forall j :: 0 <= j < k ==> !(InRect(hs[j], slave) && hs[j].mapped)
    ensures FirstMappedIn(hs, slave) == k
  {
  }

  /** No mapped hand inside the rectangle at all. */
  lemma FirstMappedInNone(hs: seq<Hand>, slave: Port)
    requires forall j :: 0 <= j < |hs| ==> !(InRect(hs[j], slave) && hs[j].mapped)
    ensures FirstMappedIn(hs, slave) == |hs|
  {
  }

  /** Extending the scanned prefix by one hand. */
  lemma LastInStep(hs: seq<Hand>, slave: Port, k: int)
    requires 0 <= k < |hs|
    ensures LastIn(hs[..k + 1], slave) == if InRect(hs[k], slave) then k else LastIn(hs[..k], slave)
  {
    assert hs[..k + 1][..k] == hs[..k];
  }

  /** A centred window of positive size that fits the slave's rectangle
      has its corner inside the rectangle. */
  lemma CenteredInside(slave: Port, width: int, height: int)
    requires 0 < width <= slave.width && 0 < height <= slave.height
    ensures var x, y := Centered(slave.left, slave.width, width), Centered(slave.top, slave.height, height);
      slave.left <= x < slave.left + slave.width && slave.top <= y < slave.top + slave.height
  {
  }

  /** The random values new_hand is given when neither axis is random; it
      draws none then. */
  const NO_RANDS: seq<nat> := [0, 0, 0, 0, 0, 0]

  /** find_one_hand on a true port: the head of its list, or (`mapped`) its
      first mapped hand, else the head, mapped. */
  method FindOnMaster(port: Port, mapped: bool) returns (r: Hand?)
    requires port.slaveOf == null && port.Valid()
    requires mapped ==> port.hands != []
    modifies (set h | h in port.hands)`withdrawn
    ensures !mapped ==> r == (if port.hands == [] then null else port.hands[0])
    ensures mapped ==>
      var k := FirstMapped(port.hands);
      r == (if k < |port.hands| then port.hands[k] else port.hands[0])
    ensures r != null && mapped ==> r.mapped || !r.withdrawn
    ensures forall h :: h in port.hands && h != r ==> h.withdrawn == old(h.withdrawn)
    ensures r != null && !(mapped && !r.mapped) ==> r.withdrawn == old(r.withdrawn)
  {
    if !mapped {
      return if port.hands == [] then null else port.hands[0];
    }
    var k := 0;
    while k < |port.hands|
      invariant 0 <= k <= |port.hands|
      invariant forall j :: 0 <= j < k ==> !port.hands[j].mapped
    {
      if port.hands[k].mapped {
        return port.hands[k];
      }
      k := k + 1;
    }
    r := port.hands[0];
    RaiseIfWanted(port, r, mapped);
  }

  /** The loop of find_one_hand over the master's hands: `done` when a
      mapped hand inside the slave's rectangle was wanted and found (the
      first one), otherwise the last hand inside the rectangle, or null. */
  method ScanSlave(hs: seq<Hand>, slave: Port, mapped: bool) returns (acceptable: Hand?, done: bool)
    ensures done <==> mapped && FirstMappedIn(hs, slave) < |hs|
    ensures done ==> acceptable == hs[FirstMappedIn(hs, slave)]
    ensures !done ==> acceptable == if LastIn(hs, slave) < 0 then null else hs[LastIn(hs, slave)]
  {
    acceptable, done := null, false;
    var k := 0;
    while k < |hs|
      invariant 0 <= k <= |hs|
      invariant acceptable == if LastIn(hs[..k], slave) < 0 then null else hs[LastIn(hs[..k], slave)]
      invariant mapped ==> forall j :: 0 <= j < k ==> !(InRect(hs[j], slave) && hs[j].mapped)
    {
      var h := hs[k];
      LastInStep(hs, slave, k);
      if InRect(h, slave) {
        acceptable := h;
        if mapped && h.mapped {
          FirstMappedInAt(hs, slave, k);
          return h, true;
        }
      }
      k := k + 1;
    }
    assert hs[..k] == hs;
    if mapped {
      FirstMappedInNone(hs, slave);
    }
  }

  /** The fields of a port that new_hand writes. */
  datatype PortState = PortState(hands: seq<Hand>, iconHands: seq<Hand>, permanentHand: Hand?,
                                 iconWidth: int, iconHeight: int)

  function PortStateOf(p: Port): PortState
    reads p
  {
    PortState(p.hands, p.iconHands, p.permanentHand, p.iconWidth, p.iconHeight)
  }

  /** The icon size of a port after new_hand: fetched (and clamped to the
      window manager's hints, if any) only while it is still 0. */
  function IconSizeAfter(w: int, h: int, opts: Options, sizes: Option<IconSize>): (int, int) {
    if w != 0 then (w, h)
    else match sizes
      case None => (opts.iconSlideshowWidth, opts.iconSlideshowHeight)
      case Some(z) => (ClampIcon(opts.iconSlideshowWidth, z.minWidth, z.maxWidth),
                       ClampIcon(opts.iconSlideshowHeight, z.minHeight, z.maxHeight))
  }

  /** A port in state `after` is the port in state `before` with `nh` and
      its icon linked by new_hand: both at the heads of their lists, `nh`
      the permanent hand exactly when there was none, and the icon size
      fetched if it was not known. */
  ghost predicate Linked(before: PortState, after: PortState, nh: Hand, opts: Options, sizes: Option<IconSize>)
    reads nh`icon
  {
    && nh.icon != null
    && after.hands == [nh] + before.hands
    && after.iconHands == [nh.icon] + before.iconHands
    && (nh.permanent <==> before.permanentHand == null)
    && after.permanentHand == (if before.permanentHand == null then nh else before.permanentHand)
    && (after.iconWidth, after.iconHeight) == IconSizeAfter(before.iconWidth, before.iconHeight, opts, sizes)
  }

  /** The `new_hand(port, NEW_HAND_CENTER, NEW_HAND_CENTER)` call of
      find_one_hand: a fresh, unmapped hand centred on the slave port, with
      a fresh icon, linked into the master's lists as new_hand links it. */
  method CentredHand(port: Port, opts: Options, sizes: Option<IconSize>, win: int, iconWin: int)
    returns (nh: Hand)
    requires port.slaveOf != null && port.slaveOf.Valid()
    modifies port.slaveOf
    ensures port.slaveOf.Valid() && fresh(nh) && fresh(nh.icon)
    ensures Linked(old(PortStateOf(port.slaveOf)), PortStateOf(port.slaveOf), nh, opts, sizes)
    ensures nh.port == port.slaveOf && nh.icon.icon == nh && nh.toplevel && !nh.isIcon && nh.icon.isIcon
    ensures nh.icon.Unshown()
    ensures nh.x == Centered(port.left, port.width, opts.slideshowWidth)
    ensures nh.y == Centered(port.top, port.height, opts.slideshowHeight)
    ensures nh.width == opts.slideshowWidth && nh.height == opts.slideshowHeight && !nh.mapped
  {
    var beeped;
    nh, beeped := NewHand(port, Center, Center, opts, sizes, NO_RANDS, NO_RANDS, win, iconWin);
  }

  /** find_one_hand on a slave port when no hand lies in its rectangle:
      the centred hand of CentredHand, which is unmapped, so it is no
      longer withdrawn when a mapped hand was asked for. */
  method CentredRaised(port: Port, mapped: bool, opts: Options, sizes: Option<IconSize>, win: int, iconWin: int)
    returns (r: Hand)
    requires port.slaveOf != null && port.slaveOf.Valid()
    modifies port.slaveOf
    ensures port.slaveOf.Valid() && fresh(r) && fresh(r.icon) && r.port == port.slaveOf
    ensures Linked(old(PortStateOf(port.slaveOf)), PortStateOf(port.slaveOf), r, opts, sizes)
    ensures r.icon.icon == r && r.toplevel && r.icon.Unshown()
    ensures r.x == Centered(port.left, port.width, opts.slideshowWidth)
    ensures r.y == Centered(port.top, port.height, opts.slideshowHeight)
    ensures r.width == opts.slideshowWidth && r.height == opts.slideshowHeight && !r.mapped
    ensures mapped ==> !r.withdrawn
  {
    r := CentredHand(port, opts, sizes, win, iconWin);
    RaiseIfWanted(port.slaveOf, r, mapped);
  }

  /** find_one_hand on a slave port, among the master's hands whose position
      lies in the slave's rectangle: (`mapped`) the first mapped one, else
      the last one, mapped if `mapped`; if there is none, a new hand centred
      on the slave, mapped if `mapped`. */
  method FindOnSlave(port: Port, mapped: bool, opts: Options, sizes: Option<IconSize>, win: int, iconWin: int)
    returns (r: Hand)
    requires port.slaveOf != null && port.slaveOf.Valid()
    modifies port.slaveOf, (set h | h in port.slaveOf.hands)`withdrawn
    ensures port.slaveOf.Valid()
    ensures var hs, f, l := old(port.slaveOf.hands), old(FirstMappedIn(port.slaveOf.hands, port)), old(LastIn(port.slaveOf.hands, port));
      && (mapped && f < |hs| ==> r == hs[f])
      && (!(mapped && f < |hs|) && l >= 0 ==> r == hs[l])
      && (l < 0 ==>
            && fresh(r) && fresh(r.icon) && r.port == port.slaveOf
            && Linked(old(PortStateOf(port.slaveOf)), PortStateOf(port.slaveOf), r, opts, sizes)
            && r.icon.icon == r && r.toplevel && r.icon.Unshown()
            && r.x == Centered(port.left, port.width, opts.slideshowWidth)
            && r.y == Centered(port.top, port.height, opts.slideshowHeight)
            && r.width == opts.slideshowWidth && r.height == opts.slideshowHeight && !r.mapped)
      && (l >= 0 ==> PortStateOf(port.slaveOf) == old(PortStateOf(port.slaveOf)))
    ensures mapped ==> r.mapped || !r.withdrawn
    ensures forall h :: h in old(port.slaveOf.hands) && h != r ==> h.withdrawn == old(h.withdrawn)
    ensures !fresh(r) && !(mapped && !old(r.mapped)) ==> r.withdrawn == old(r.withdrawn)
  {
    var hs := port.slaveOf.hands;
    var acceptable, done := ScanSlave(hs, port, mapped);
    if done {
      return acceptable;
    }
    if acceptable == null {
      r := CentredRaised(port, mapped, opts, sizes, win, iconWin);
      return;
    }
    r := acceptable;
    RaiseIfWanted(port.slaveOf, r, mapped);
  }

  /** find_one_hand: FindOnMaster on a true port, FindOnSlave on a slave
      port. The true port's list must not be empty when `mapped` is set
      (its head is dereferenced). */
  method FindOneHand(port: Port, mapped: bool, opts: Options, sizes: Option<IconSize>, win: int, iconWin: int)
    returns (r: Hand?)
    requires port.MasterPort().Valid()
    requires port.slaveOf == null && mapped ==> port.hands != []
    modifies port.MasterPort(), (set h | h in port.MasterPort().hands)`withdrawn
    ensures port.MasterPort().Valid()
    ensures mapped || port.slaveOf != null ==> r != null
    ensures port.slaveOf == null ==> PortStateOf(port) == old(PortStateOf(port))
    ensures port.slaveOf == null && !mapped ==>
      r == (if port.hands == [] then null else port.hands[0])
    ensures port.slaveOf == null && mapped ==>
      var k := old(FirstMapped(port.hands));
      r == (if k < |port.hands| then port.hands[k] else port.hands[0])
    ensures port.slaveOf != null ==>
      var hs, f, l := old(port.slaveOf.hands), old(FirstMappedIn(port.slaveOf.hands, port)), old(LastIn(port.slaveOf.hands, port));
      && (mapped && f < |hs| ==> r == hs[f])
      && (!(mapped && f < |hs|) && l >= 0 ==> r == hs[l])
      && (l < 0 ==>
            && fresh(r) && fresh(r.icon) && r.port == port.slaveOf
            && Linked(old(PortStateOf(port.slaveOf)), PortStateOf(port.slaveOf), r, opts, sizes)
            && r.icon.icon == r && r.toplevel && r.icon.Unshown()
            && r.x == Centered(port.left, port.width, opts.slideshowWidth)
            && r.y == Centered(port.top, port.height, opts.slideshowHeight)
            && r.width == opts.slideshowWidth && r.height == opts.slideshowHeight && !r.mapped)
      && (l >= 0 ==> PortStateOf(port.slaveOf) == old(PortStateOf(port.slaveOf)))
    ensures r != null && mapped ==> r.mapped || !r.withdrawn
    ensures forall h :: h in old(port.MasterPort().hands) && h != r ==> h.withdrawn == old(h.withdrawn)
  {
    if port.slaveOf == null {
      r := FindOnMaster(port, mapped);
    } else {
      r := FindOnSlave(port, mapped, opts, sizes, win, iconWin);
    }
  }
}
