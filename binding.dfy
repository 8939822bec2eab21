/** Binding hands to slideshows: set_slideshow and set_all_slideshows in
    pictures.c. A hand moved to a new slideshow keeps showing the frame it
    showed when that very frame is in the new slideshow (after its first
    frame), and its frame timer is moved so that the new frame's delay
    counts from when the old frame started. */
module Binding {

  import opened Wrappers
  import opened Timeval
  import opened Alarms
  import opened Gif
  import opened Hands
  import HandShow

  /** The frame set_slideshow continues with when the hand showed `cur`:
      the last index after the first whose frame is `cur` itself, else 0
      (-1 for a slideshow without frames, where the search starts below 0). */
  function LastMatch(imgs: seq<Image>, cur: Image): (j: int)
    ensures j == -1 <==> imgs == []
    ensures -1 <= j < |imgs| && (j > 0 ==> imgs[j] == cur)
    ensures forall k :: 0 < k < |imgs| && j < k ==> imgs[k] != cur
    decreases |imgs|
  {
    if |imgs| <= 1 then |imgs| - 1
    else if imgs[|imgs| - 1] == cur then |imgs| - 1
    else LastMatch(imgs[..|imgs| - 1], cur)
  }

  /** The search loop of set_slideshow: from the last frame down to frame
      1, stopping at the old frame. */
  method FindMatch(imgs: seq<Image>, cur: Image) returns (which: int)
    ensures which == LastMatch(imgs, cur)
  {
    which := |imgs| - 1;
    while which > 0 && imgs[which] != cur
      invariant -1 <= which < |imgs| && (imgs != [] ==> which >= 0)
      invariant forall k :: which < k < |imgs| ==> imgs[k] != cur
    {
      which := which - 1;
    }
  }

  /** A hand showing a slideshow shows one of its frames. */
  predicate SlideInRange(h: Hand)
    reads h, h.slideshow
  {
    h.slideshow != null ==> 0 <= h.slide < |h.slideshow.images|
  }

  /** A render cache has a slot for each of `count` frames, at least one,
      on the port. */
  predicate Fits(count: int, frames: seq<seq<int>>, port: Port) {
    0 <= port.portNumber < |frames| && 0 < count <= |frames[port.portNumber]|
  }

  /** What draw_slide needs of a slideshow shown on a port: it has frames,
      every one of them points to the render cache pl, and pl has a slot
      for every frame on that port (as parse_slideshow leaves it). */
  predicate Ready(gfs: Stream, pl: PictureList, port: Port)
    reads gfs, pl, set img | img in gfs.images
  {
    Listing(gfs, pl) && Fits(|gfs.images|, pl.frames, port)
  }

  /** Every frame of gfs points to the render cache pl. */
  predicate Listing(gfs: Stream, pl: PictureList)
    reads gfs, set img | img in gfs.images
  {
    forall k :: 0 <= k < |gfs.images| ==> gfs.images[k].userData == Listed(pl)
  }

  /** The moment the new frame's delay counts from: the old frame's start
      (its timer less its delay) when the hand showed a frame and had a
      pending timer, `now` otherwise. */
  function FlashStart(now: Timeval, timer: Option<Timeval>, curDelay: Option<int>): Timeval {
    if timer.Some? && curDelay.Some? then SubDelay(timer.value, curDelay.value) else now
  }

  /** The old frame's delay, if the hand shows a frame. */
  function CurrentDelay(h: Hand): (d: Option<int>)
    reads h, h.slideshow, if h.slideshow != null && 0 <= h.slide < |h.slideshow.images| then {h.slideshow.images[h.slide]} else {}
    ensures d.Some? <==> h.slideshow != null && 0 <= h.slide < |h.slideshow.images|
  {
    if h.slideshow != null && 0 <= h.slide < |h.slideshow.images| then Some(h.slideshow.images[h.slide].content.delay) else None
  }

  /** The frame set_slideshow gives a hand moving to `gfs`. */
  function NewSlide(h: Hand, gfs: Stream): (j: int)
    reads h, h.slideshow, gfs
    ensures h.slideshow == null ==> j == 0
  {
    if h.slideshow != null && 0 <= h.slide < |h.slideshow.images| then LastMatch(gfs.images, h.slideshow.images[h.slide]) else 0
  }

  /** A hand whose frame is also in the new slideshow (after its first
      frame) stays on that very frame, and its timer, moved back by the
      old frame's delay and forward by the new one's, is where it was. */
  lemma SameFrameSameTimer(h: Hand, gfs: Stream, now: Timeval, timer: Timeval)
    requires SlideInRange(h) && h.slideshow != null && NewSlide(h, gfs) > 0
    requires Normal(timer) && CurrentDelay(h).value >= 0
    ensures gfs.images[NewSlide(h, gfs)] == h.slideshow.images[h.slide]
    ensures AddDelay(FlashStart(now, Some(timer), CurrentDelay(h)), gfs.images[NewSlide(h, gfs)].content.delay) == timer
  {
    AddDelaySubDelay(timer, CurrentDelay(h).value);
  }

  /** Where set_slideshow takes up a hand moving to `gfs`: the frame to
      show and the moment its delay counts from. */
  method Resume(h: Hand, gfs: Stream, now: Timeval, sched: Scheduler) returns (which: int, t: Timeval)
    requires SlideInRange(h) && |gfs.images| > 0
    ensures which == NewSlide(h, gfs) && 0 <= which < |gfs.images|
    ensures t == FlashStart(now, sched.Find(A_FLASH, h), CurrentDelay(h))
  {
    t := now;
    var a := sched.Find(A_FLASH, h);
    which := 0;
    if h.slideshow != null {
      var cur := h.slideshow.images[h.slide];
      if a.Some? {
        t := SubDelay(a.value, cur.content.delay);
      }
      which := FindMatch(gfs.images, cur);
    }
  }

  /** The frame timer of a hand moving to a slideshow of n frames: armed
      at `timer` if there is more than one frame, dropped otherwise. */
  method MoveFlash(h: Hand, sched: Scheduler, n: int, timer: Timeval)
    modifies sched`pending
    ensures sched.pending ==
      if n > 1 then old(sched.pending)[Key(A_FLASH, h) := timer] else old(sched.pending) - {Key(A_FLASH, h)}
  {
    if n > 1 {
      sched.Schedule(A_FLASH, h, timer);
    } else if sched.Find(A_FLASH, h).Some? {
      sched.Unschedule(A_FLASH, h);
    }
  }

  /** set_slideshow: nothing for the stream the hand already shows; null
      unbinds the hand and drops its frame timer; otherwise the hand shows
      frame NewSlide of `gfs` from its first loop, its frame timer is armed
      for that frame's delay after FlashStart if `gfs` has more than one
      frame and dropped otherwise, and the frame is drawn (`rendered` is
      what the renderer produces for it). */
  method SetSlideshow(h: Hand, gfs: Stream?, now: Timeval, sched: Scheduler, ghost pl: PictureList?, rendered: int)
    returns (background: Option<int>)
    requires SlideInRange(h)
    requires gfs != null ==> pl != null && Ready(gfs, pl, h.port)
    modifies h`slideshow, h`slide, h`loopcount, sched`pending, (if pl == null then {} else {pl})`frames
    ensures gfs == old(h.slideshow) ==>
      && h.slideshow == old(h.slideshow) && h.slide == old(h.slide) && h.loopcount == old(h.loopcount)
      && sched.pending == old(sched.pending) && background == None
    ensures gfs == null && old(h.slideshow) != null ==>
      && h.slideshow == null && h.slide == old(h.slide) && h.loopcount == old(h.loopcount)
      && sched.pending == old(sched.pending) - {Key(A_FLASH, h)} && background == None
    ensures gfs != null && gfs != old(h.slideshow) ==>
      var which := old(NewSlide(h, gfs));
      var t := FlashStart(now, old(sched.Find(A_FLASH, h)), old(CurrentDelay(h)));
      && 0 <= which < |gfs.images|
      && h.slideshow == gfs && h.slide == which && h.loopcount == 0
      && sched.pending ==
           (if |gfs.images| > 1 then old(sched.pending)[Key(A_FLASH, h) := AddDelay(t, gfs.images[which].content.delay)]
            else old(sched.pending) - {Key(A_FLASH, h)})
      && pl.frames == HandShow.Cached(old(pl.frames), h.port.portNumber, which, rendered)
      && background == Some(pl.frames[h.port.portNumber][which])
    ensures pl != null && (gfs == old(h.slideshow) || gfs == null) ==> pl.frames == old(pl.frames)
    ensures Moved(h, gfs, old(StateOf(h)), now, old(sched.pending), sched.pending)
    ensures AgreesBut(old(sched.pending), sched.pending, Key(A_FLASH, h))
    ensures pl != null ==> |pl.frames| == old(|pl.frames|)
    ensures pl != null ==> forall m :: 0 <= m < |pl.frames| ==> |pl.frames[m]| == old(|pl.frames[m]|)
  {
    if h.slideshow == gfs {
      return None;
    } else if gfs == null {
      h.slideshow := null;
      sched.Unschedule(A_FLASH, h);
      return None;
    }
    var which, t := Resume(h, gfs, now, sched);
    MoveFlash(h, sched, |gfs.images|, AddDelay(t, gfs.images[which].content.delay));
    h.slideshow := gfs;
    h.loopcount := 0;
    h.slide := which;
    assert HandShow.CacheOf(h) == pl;
    background := HandShow.DrawSlide(h, rendered);
  }

  /** What set_slideshow reads and writes of a hand: the stream, the frame
      index, the loop, the frame shown (null when none is) and its delay. */
  datatype HandState = HandState(slideshow: Stream?, slide: int, loopcount: int, shown: Image?, delay: Option<int>)

  /** The state of a hand. */
  function StateOf(h: Hand): (r: HandState)
    reads h, h.slideshow, HandShow.FrameOf(h)
  {
    HandState(h.slideshow, h.slide, h.loopcount, HandShow.FrameOf(h), CurrentDelay(h))
  }

  /** The states of the hands. */
  ghost function StatesOf(hands: seq<Hand>): (r: seq<HandState>)
    reads set h | h in hands
    reads set h | h in hands :: h.slideshow
    reads set h | h in hands :: HandShow.FrameOf(h)
    ensures |r| == |hands|
    ensures forall k :: 0 <= k < |hands| ==> r[k] == StateOf(hands[k])
  {
    seq(|hands|, k requires 0 <= k < |hands|
                   reads set h | h in hands, set h | h in hands :: h.slideshow, set h | h in hands :: HandShow.FrameOf(h) =>
      StateOf(hands[k]))
  }

  /** A state whose slide is a frame of its slideshow (SlideInRange). */
  predicate InRange(s: HandState) {
    s.slideshow != null ==> s.shown != null
  }

  /** The pending frame timer of an object in a timer map. */
  function FlashTimer(m: map<Key, Timeval>, data: object): (t: Option<Timeval>)
    ensures t.Some? <==> Key(A_FLASH, data) in m
    ensures t.Some? ==> t.value == m[Key(A_FLASH, data)]
  {
    if Key(A_FLASH, data) in m then Some(m[Key(A_FLASH, data)]) else None
  }

  /** The frame a hand in state `was` continues with in a stream of frames
      `imgs` (as NewSlide). */
  function NextSlide(was: HandState, imgs: seq<Image>): (j: int)
    ensures |imgs| > 0 ==> 0 <= j < |imgs|
  {
    if was.shown != null then LastMatch(imgs, was.shown) else 0
  }

  /** The frame timer set_slideshow gives a hand in state `was`, whose
      timer was `timer`, moving at `now` to a stream of `count` frames
      whose new frame has delay `delay`. */
  function MovedTimer(count: int, delay: int, was: HandState, now: Timeval, timer: Option<Timeval>): Option<Timeval> {
    if count > 1 then Some(AddDelay(FlashStart(now, timer, was.delay), delay)) else None
  }

  /** A hand now in state `s` with frame timer `after`, that was in state
      `was` with frame timer `before`, after set_slideshow at `now` to gfs,
      whose frames are `imgs`: it shows gfs. If it showed gfs already,
      nothing about it changed. If gfs is null, it lost its frame timer.
      Otherwise it shows frame NextSlide of gfs from its first loop, with
      the frame timer MovedTimer. */
  predicate MovedState(s: HandState, gfs: Stream?, imgs: seq<Image>, was: HandState, now: Timeval,
                       before: Option<Timeval>, after: Option<Timeval>)
  {
    && s.slideshow == gfs
    && if was.slideshow == gfs then
         && s.slide == was.slide && s.loopcount == was.loopcount
         && after == before
       else if gfs == null then
         && s.slide == was.slide && s.loopcount == was.loopcount
         && after == None
       else
         && s.slide == NextSlide(was, imgs) && 0 <= s.slide < |imgs| && s.loopcount == 0
         && s.shown == imgs[s.slide] && s.delay.Some?
         && after == MovedTimer(|imgs|, s.delay.value, was, now, before)
  }

  /** Hand h has moved to gfs (MovedState of its present state). */
  ghost predicate Moved(h: Hand, gfs: Stream?, was: HandState, now: Timeval,
                        before: map<Key, Timeval>, after: map<Key, Timeval>)
    reads h, h.slideshow, gfs, HandShow.FrameOf(h)
  {
    MovedState(StateOf(h), gfs, if gfs == null then [] else gfs.images, was, now, FlashTimer(before, h), FlashTimer(after, h))
  }

  /** A hand not reached yet: as it was. */
  ghost predicate Untouched(h: Hand, was: HandState, before: map<Key, Timeval>, after: map<Key, Timeval>)
    reads h, h.slideshow, HandShow.FrameOf(h)
  {
    StateOf(h) == was && FlashTimer(after, h) == FlashTimer(before, h)
  }

  /** The frame timer keys of the hands. */
  function FlashKeys(hands: seq<Hand>): set<Key> {
    set h | h in hands :: Key(A_FLASH, h)
  }

  /** The timers other than the hands' frame timers are as they were. */
  ghost predicate OthersKept(before: map<Key, Timeval>, after: map<Key, Timeval>, keys: set<Key>) {
    && (forall key :: key in before && key !in keys ==> key in after && after[key] == before[key])
    && (forall key :: key in after && key !in keys ==> key in before)
  }

  /** A draw of draw_slide: the slot for frame `slot` on port `port` is
      filled with `pixmap` unless it holds one already. */
  datatype Draw = Draw(port: int, slot: int, pixmap: int)

  /** The draw set_slideshow makes for hand h, in state `was`, moving to
      gfs (whose frames are `imgs`): none when it stays or is unbound, else
      its new frame on its port, rendered as `rendered`. */
  function DrawOf(gfs: Stream?, imgs: seq<Image>, h: Hand, was: HandState, rendered: int): Option<Draw> {
    if gfs != null && was.slideshow != gfs then Some(Draw(h.port.portNumber, NextSlide(was, imgs), rendered)) else None
  }

  /** The draws of set_all_slideshows, hand by hand. */
  ghost function Draws(gfs: Stream?, imgs: seq<Image>, hands: seq<Hand>, was: seq<HandState>, rendered: seq<int>)
    : (r: seq<Option<Draw>>)
    requires |hands| == |was| == |rendered|
    ensures |r| == |hands|
    ensures forall k :: 0 <= k < |hands| ==> r[k] == DrawOf(gfs, imgs, hands[k], was[k], rendered[k])
    ensures gfs == null ==> forall k :: 0 <= k < |hands| ==> r[k] == None
  {
    seq(|hands|, k requires 0 <= k < |hands| => DrawOf(gfs, imgs, hands[k], was[k], rendered[k]))
  }

  /** The render cache after the first n draws, in order (a draw outside
      the cache changes nothing). */
  function Painted(frames: seq<seq<int>>, draws: seq<Option<Draw>>, n: int): (r: seq<seq<int>>)
    requires 0 <= n <= |draws|
    ensures |r| == |frames|
    decreases n
  {
    if n == 0 then frames
    else
      var f := Painted(frames, draws, n - 1);
      match draws[n - 1]
      case Some(d) =>
        if 0 <= d.port < |f| && 0 <= d.slot < |f[d.port]| then HandShow.Cached(f, d.port, d.slot, d.pixmap) else f
      case None => f
  }

  /** Painting keeps the render cache's shape: every port has as many
      slots as before. */
  lemma {:induction false} PaintedShape(frames: seq<seq<int>>, draws: seq<Option<Draw>>, n: int)
    requires 0 <= n <= |draws|
    ensures var r := Painted(frames, draws, n);
      |r| == |frames| && forall m :: 0 <= m < |frames| ==> |r[m]| == |frames[m]|
    decreases n
  {
    if n > 0 {
      PaintedShape(frames, draws, n - 1);
    }
  }

  /** Without a draw the render cache stays as it is. */
  lemma {:induction false} NothingPainted(frames: seq<seq<int>>, draws: seq<Option<Draw>>, n: int)
    requires 0 <= n <= |draws| && forall k :: 0 <= k < n ==> draws[k] == None
    ensures Painted(frames, draws, n) == frames
    decreases n
  {
    if n > 0 {
      NothingPainted(frames, draws, n - 1);
    }
  }

  /** Two timer maps that differ at most at `key`. */
  ghost predicate AgreesBut(before: map<Key, Timeval>, after: map<Key, Timeval>, key: Key) {
    && (forall x :: x in before && x != key ==> x in after && after[x] == before[x])
    && (forall x :: x in after && x != key ==> x in before)
  }

  /** `at` maps each hand of the list to its position, so that no hand is
      listed twice. */
  ghost predicate Positions(hands: seq<Hand>, at: map<Hand, int>) {
    forall k :: 0 <= k < |hands| ==> hands[k] in at && at[hands[k]] == k
  }

  /** A list in which no hand is listed twice has its positions. */
  lemma PositionsOf(hands: seq<Hand>) returns (at: map<Hand, int>)
    requires forall j, k :: 0 <= j < k < |hands| ==> hands[j] != hands[k]
    ensures Positions(hands, at)
  {
    at := map k | 0 <= k < |hands| :: hands[k] := k;
  }

  /** Changing one hand's frame timer keeps the other hands' frame timers
      and every other timer. */
  lemma StepTimers(hands: seq<Hand>, at: map<Hand, int>, i: int, before: map<Key, Timeval>, mid: map<Key, Timeval>, after: map<Key, Timeval>)
    requires 0 <= i < |hands| && Positions(hands, at)
    requires OthersKept(before, mid, FlashKeys(hands))
    requires AgreesBut(mid, after, Key(A_FLASH, hands[i]))
    ensures OthersKept(before, after, FlashKeys(hands))
    ensures forall k :: 0 <= k < |hands| && k != i ==> FlashTimer(after, hands[k]) == FlashTimer(mid, hands[k])
  {
    forall k | 0 <= k < |hands| && k != i
      ensures FlashTimer(after, hands[k]) == FlashTimer(mid, hands[k])
    {
      assert Key(A_FLASH, hands[k]) != Key(A_FLASH, hands[i]);
    }
    assert Key(A_FLASH, hands[i]) in FlashKeys(hands);
  }

  /** Filling cache slots keeps room for every frame on every port. */
  lemma FitsKept(count: int, before: seq<seq<int>>, after: seq<seq<int>>, hands: seq<Hand>)
    requires forall k :: 0 <= k < |hands| ==> Fits(count, before, hands[k].port)
    requires |after| == |before| && forall m :: 0 <= m < |after| ==> |after[m]| == |before[m]|
    ensures forall k :: 0 <= k < |hands| ==> Fits(count, after, hands[k].port)
  {
  }

  /** How far set_all_slideshows has got: the hands before i, now in
      states `cur`, have moved from their states `was` with timers `start`
      to gfs (whose frames are `imgs`) at `now`; the rest are as they were;
      the timers other than the hands' frame timers are as they were. */
  ghost predicate Progress(hands: seq<Hand>, cur: seq<HandState>, was: seq<HandState>, gfs: Stream?, imgs: seq<Image>,
                     now: Timeval, start: map<Key, Timeval>, pending: map<Key, Timeval>, i: int)
  {
    && |cur| == |hands| == |was| && 0 <= i <= |hands|
    && (forall k :: 0 <= k < i ==>
          MovedState(cur[k], gfs, imgs, was[k], now, FlashTimer(start, hands[k]), FlashTimer(pending, hands[k])))
    && (forall k :: i <= k < |hands| ==>
          cur[k] == was[k] && FlashTimer(pending, hands[k]) == FlashTimer(start, hands[k]))
    && OthersKept(start, pending, FlashKeys(hands))
  }

  /** Moving hand i, which then is in state `s` and has changed no timer
      but its own frame timer, advances Progress by one hand. */
  lemma ProgressStep(hands: seq<Hand>, at: map<Hand, int>, cur: seq<HandState>, was: seq<HandState>, gfs: Stream?, imgs: seq<Image>,
                     now: Timeval, start: map<Key, Timeval>, mid: map<Key, Timeval>, after: map<Key, Timeval>,
                     i: int, s: HandState)
    requires Progress(hands, cur, was, gfs, imgs, now, start, mid, i) && i < |hands|
    requires Positions(hands, at)
    requires AgreesBut(mid, after, Key(A_FLASH, hands[i]))
    requires MovedState(s, gfs, imgs, was[i], now, FlashTimer(start, hands[i]), FlashTimer(after, hands[i]))
    ensures Progress(hands, cur[i := s], was, gfs, imgs, now, start, after, i + 1)
  {
    StepTimers(hands, at, i, start, mid, after);
  }

  /** One pass of the loop of set_all_slideshows: hand i moved to gfs,
      the other hands as they were. */
  method SetStep(hands: seq<Hand>, ghost at: map<Hand, int>, i: int, h: Hand, gfs: Stream?, now: Timeval, sched: Scheduler, ghost pl: PictureList?,
                 rendered: seq<int>, ghost was: seq<HandState>, ghost before: map<Key, Timeval>,
                 ghost frames: seq<seq<int>>, ghost imgs: seq<Image>, ghost draws: seq<Option<Draw>>)
    requires 0 <= i < |hands| == |was| == |rendered| && h == hands[i]
    requires gfs != null ==> imgs == gfs.images
    requires Positions(hands, at)
    requires SlideInRange(h)
    requires gfs != null ==> pl != null && Listing(gfs, pl)
    requires gfs != null ==> forall k :: 0 <= k < |hands| ==> Fits(|gfs.images|, pl.frames, hands[k].port)
    requires gfs != null ==> forall k :: 0 <= k < |hands| ==> Fits(|gfs.images|, frames, hands[k].port)
    requires Untouched(h, was[i], before, sched.pending)
    requires i < |draws| && draws[i] == DrawOf(gfs, imgs, h, was[i], rendered[i])
    requires pl != null ==> pl.frames == Painted(frames, draws, i)
    modifies h`slideshow, h`slide, h`loopcount
    modifies sched`pending, (if pl == null then {} else {pl})`frames
    ensures StatesOf(hands) == old(StatesOf(hands))[i := StateOf(h)]
    ensures gfs != null ==> Listing(gfs, pl)
    ensures gfs != null ==> forall k :: 0 <= k < |hands| ==> Fits(|gfs.images|, pl.frames, hands[k].port)
    ensures Moved(h, gfs, was[i], now, before, sched.pending)
    ensures AgreesBut(old(sched.pending), sched.pending, Key(A_FLASH, h))
    ensures pl != null ==> pl.frames == Painted(frames, draws, i + 1)
  {
    ghost var before_frames := if pl == null then [] else pl.frames;
    if gfs != null {
      assert Ready(gfs, pl, h.port);
    }
    var _ := SetSlideshow(h, gfs, now, sched, pl, rendered[i]);
    if gfs != null {
      FitsKept(|gfs.images|, before_frames, pl.frames, hands);
    }
    forall k | 0 <= k < |hands| && k != i
      ensures StateOf(hands[k]) == old(StateOf(hands[k]))
    {
      assert hands[k] != h;
    }
    assert StatesOf(hands) == old(StatesOf(hands))[i := StateOf(h)];
  }

  /** The render cache, if there is one, is `frames` after the first n
      draws. */
  ghost predicate Shows(pl: PictureList?, frames: seq<seq<int>>, draws: seq<Option<Draw>>, n: int)
    reads pl
  {
    pl != null ==> 0 <= n <= |draws| && pl.frames == Painted(frames, draws, n)
  }

  /** The loop body of set_all_slideshows, from the loop invariant at i to
      the loop invariant at the next hand, i + 1. Progress and Shows are
      compared with `true` where they are to be proved, so that the
      verifier checks each as one fact instead of conjunct by conjunct. */
  method Pass(hands: seq<Hand>, ghost at: map<Hand, int>, i: int, gfs: Stream?, now: Timeval, sched: Scheduler, ghost pl: PictureList?,
              rendered: seq<int>, ghost was: seq<HandState>, ghost start: map<Key, Timeval>,
              ghost frames: seq<seq<int>>, ghost imgs: seq<Image>, ghost draws: seq<Option<Draw>>)
    returns (next: int)
    requires 0 <= i < |hands| == |was| == |rendered| && Positions(hands, at)
    requires gfs != null ==> pl != null && imgs == gfs.images
    requires InRange(was[i])
    requires gfs != null && |hands| > 0 ==> Listing(gfs, pl)
    requires gfs != null ==> forall k :: 0 <= k < |hands| ==> Fits(|gfs.images|, frames, hands[k].port)
    requires Progress(hands, StatesOf(hands), was, gfs, imgs, now, start, sched.pending, i) == true
    requires draws == Draws(gfs, imgs, hands, was, rendered)
    requires Shows(pl, frames, draws, i) == true
    modifies (set h | h in hands)`slideshow, (set h | h in hands)`slide, (set h | h in hands)`loopcount
    modifies sched`pending, (if pl == null then {} else {pl})`frames
    ensures next == i + 1
    ensures gfs != null && |hands| > 0 ==> Listing(gfs, pl)
    ensures Progress(hands, StatesOf(hands), was, gfs, imgs, now, start, sched.pending, next) == true
    ensures Shows(pl, frames, draws, next) == true
  {
    ghost var cur := StatesOf(hands);
    ghost var pending := sched.pending;
    if gfs != null {
      PaintedShape(frames, draws, i);
      FitsKept(|imgs|, frames, pl.frames, hands);
    }
    SetStep(hands, at, i, hands[i], gfs, now, sched, pl, rendered, was, start, frames, imgs, draws);
    ProgressStep(hands, at, cur, was, gfs, imgs, now, start, pending, sched.pending, i, StateOf(hands[i]));
    next := i + 1;
  }

  /** The loop of set_all_slideshows: each hand of the list in turn is
      moved to `gfs`; `was`, `start` and `frames` are the hands' states, the
      timers and the render cache before the loop. */
  method SetEach(hands: seq<Hand>, ghost at: map<Hand, int>, gfs: Stream?, now: Timeval, sched: Scheduler, ghost pl: PictureList?,
                 rendered: seq<int>, ghost was: seq<HandState>, ghost start: map<Key, Timeval>,
                 ghost frames: seq<seq<int>>, ghost imgs: seq<Image>, ghost draws: seq<Option<Draw>>)
    requires |hands| == |was| == |rendered| && Positions(hands, at)
    requires gfs != null ==> pl != null && imgs == gfs.images
    requires forall k :: 0 <= k < |hands| ==> InRange(was[k])
    requires gfs != null && |hands| > 0 ==> Listing(gfs, pl)
    requires gfs != null ==> forall k :: 0 <= k < |hands| ==> Fits(|gfs.images|, frames, hands[k].port)
    requires StatesOf(hands) == was && sched.pending == start
    requires draws == Draws(gfs, imgs, hands, was, rendered)
    requires pl != null ==> pl.frames == frames
    modifies (set h | h in hands)`slideshow, (set h | h in hands)`slide, (set h | h in hands)`loopcount
    modifies sched`pending, (if pl == null then {} else {pl})`frames
    ensures gfs != null && |hands| > 0 ==> Listing(gfs, pl)
    ensures Progress(hands, StatesOf(hands), was, gfs, imgs, now, start, sched.pending, |hands|) == true
    ensures Shows(pl, frames, draws, |hands|) == true
  {
    var i := 0;
    while i < |hands|
      invariant 0 <= i <= |hands|
      invariant gfs != null && |hands| > 0 ==> Listing(gfs, pl)
      invariant Progress(hands, StatesOf(hands), was, gfs, imgs, now, start, sched.pending, i) == true
      invariant Shows(pl, frames, draws, i) == true
    {
      i := Pass(hands, at, i, gfs, now, sched, pl, rendered, was, start, frames, imgs, draws);
    }
  }

  /** Once every hand has had its pass, each of them is `Moved`. */
  lemma EachMoved(hands: seq<Hand>, cur: seq<HandState>, was: seq<HandState>, gfs: Stream?, imgs: seq<Image>, now: Timeval,
                  start: map<Key, Timeval>, pending: map<Key, Timeval>)
    requires imgs == if gfs == null then [] else gfs.images
    requires StatesOf(hands) == cur
    requires Progress(hands, cur, was, gfs, imgs, now, start, pending, |hands|) == true
    ensures forall k :: 0 <= k < |hands| ==> Moved(hands[k], gfs, was[k], now, start, pending)
  {
    forall k | 0 <= k < |hands|
      ensures Moved(hands[k], gfs, was[k], now, start, pending)
    {
      assert cur[k] == StateOf(hands[k]);
    }
  }

  /** set_all_slideshows: every hand of the list moved to `gfs` at the
      same moment `now`, which becomes the current slideshow; no timer but
      the hands' frame timers changes, and the render cache has every
      moved hand's new frame drawn. `rendered[k]` is what the renderer
      produces for hand k. */
  method SetAllSlideshows(hands: seq<Hand>, gfs: Stream?, now: Timeval, sched: Scheduler,
                          ghost pl: PictureList?, rendered: seq<int>)
    returns (current: Stream?)
    requires |rendered| == |hands| && forall j, k :: 0 <= j < k < |hands| ==> hands[j] != hands[k]
    requires forall k :: 0 <= k < |hands| ==> SlideInRange(hands[k])
    requires gfs != null ==> pl != null && forall k :: 0 <= k < |hands| ==> Ready(gfs, pl, hands[k].port)
    modifies (set h | h in hands)`slideshow, (set h | h in hands)`slide, (set h | h in hands)`loopcount
    modifies sched`pending, (if pl == null then {} else {pl})`frames
    ensures current == gfs
    ensures forall k :: 0 <= k < |hands| ==>
      Moved(hands[k], gfs, old(StatesOf(hands))[k], now, old(sched.pending), sched.pending)
    ensures OthersKept(old(sched.pending), sched.pending, FlashKeys(hands))
    ensures gfs != null ==> forall k :: 0 <= k < |hands| ==> Ready(gfs, pl, hands[k].port)
    ensures pl != null ==> |pl.frames| == old(|pl.frames|)
    ensures pl != null ==> forall m :: 0 <= m < |pl.frames| ==> |pl.frames[m]| == old(|pl.frames[m]|)
    ensures gfs != null ==> forall k :: 0 <= k < |hands| ==> Fits(|gfs.images|, old(pl.frames), hands[k].port)
    ensures pl != null ==>
      pl.frames == Painted(old(pl.frames), Draws(gfs, if gfs == null then [] else gfs.images, hands, old(StatesOf(hands)), rendered), |hands|)
    ensures pl != null && gfs == null ==> pl.frames == old(pl.frames)
  {
    ghost var was := StatesOf(hands);
    ghost var start := sched.pending;
    ghost var frames := if pl == null then [] else pl.frames;
    ghost var imgs := if gfs == null then [] else gfs.images;
    ghost var at := PositionsOf(hands);
    assert forall k :: 0 <= k < |hands| ==> InRange(was[k]);
    if gfs != null && |hands| > 0 {
      assert Ready(gfs, pl, hands[0].port);
    }
    ghost var draws := Draws(gfs, imgs, hands, was, rendered);
    SetEach(hands, at, gfs, now, sched, pl, rendered, was, start, frames, imgs, draws);
    if pl != null {
      PaintedShape(frames, draws, |hands|);
      if gfs == null {
        NothingPainted(frames, draws, |hands|);
      }
    }
    if gfs != null {
      FitsKept(|imgs|, frames, pl.frames, hands);
    }
    EachMoved(hands, StatesOf(hands), was, gfs, imgs, now, start, sched.pending);
    current := gfs;
  }
}
