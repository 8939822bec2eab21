/** Composing a slideshow: add_stream_to_slideshow merges the frames of one
    source stream (a built-in picture or a GIF file) into the slideshow
    being built, rescaling every frame delay by the flash-rate ratio and
    repeating looping sources. The value-level functions here are the
    reference the imperative merge is proved against. */
module Compose {

  import opened Wrappers
  import opened CInt
  import opened Gif

  /** A one-frame source is shown for this many seconds (xwrits.h). */
  const DEFAULT_FLASH_DELAY_SEC: int := 2
  /** The delay, in hundredths of a second, a one-frame source gets. */
  const ONE_FRAME_DELAY: int := DEFAULT_FLASH_DELAY_SEC * 100
  const MIN_DELAY: int := 4
  /** The largest delay a GIF frame can hold (16 bits). */
  const MAX_DELAY: int := 0xFFFF
  /** A looping source is repeated at most this many times. */
  const MAX_LOOPS: int := 20

  function Max(a: int, b: int): int { if a > b then a else b }
  function Min(a: int, b: int): int { if a < b then a else b }

  // ---------------------------------------------------------------------
  // Delays

  /** The delay of a merged frame: `d = delay * ratio`, 0xFFFF when d is
      negative or does not fit 16 bits, MIN_DELAY when it is below that,
      and d truncated to an integer otherwise. */
  function ClampDelay(delay: int, ratio: real): (d: int)
    ensures MIN_DELAY <= d <= MAX_DELAY
    ensures var x := delay as real * ratio;
      (x < 0.0 || x >= MAX_DELAY as real ==> d == MAX_DELAY)
      && (0.0 <= x < MIN_DELAY as real ==> d == MIN_DELAY)
      && (MIN_DELAY as real <= x < MAX_DELAY as real ==> d as real <= x < d as real + 1.0)
  {
    var x := delay as real * ratio;
    if x < 0.0 || x >= MAX_DELAY as real then MAX_DELAY
    else if x < MIN_DELAY as real then MIN_DELAY
    else x.Floor
  }

  /** At the normal flash rate a representable delay of at least
      MIN_DELAY is kept as it is. */
  lemma ClampDelayUnit(delay: int)
    requires MIN_DELAY <= delay < MAX_DELAY
    ensures ClampDelay(delay, 1.0) == delay
  {
  }

  // ---------------------------------------------------------------------
  // Frames

  /** A frame of a source of n frames as it is merged: with delay
      ONE_FRAME_DELAY when it is the only one, as it is otherwise. */
  function SourceFrame(f: FrameVal, n: int): FrameVal {
    if n == 1 then f.(delay := ONE_FRAME_DELAY) else f
  }

  /** The frames of a source as they are merged: a one-frame source has its
      frame's delay set to ONE_FRAME_DELAY first. */
  function SourceFrames(fs: seq<FrameVal>): (r: seq<FrameVal>)
    ensures |r| == |fs|
    ensures |fs| == 1 ==> r[0] == fs[0].(delay := ONE_FRAME_DELAY)
    ensures |fs| != 1 ==> r == fs
    ensures forall k :: 0 <= k < |fs| ==> r[k] == SourceFrame(fs[k], |fs|)
  {
    if |fs| == 1 then [fs[0].(delay := ONE_FRAME_DELAY)] else fs
  }

  /** A source frame as it enters the slideshow: it gets the source's
      global palette as its local palette when it has none, and its delay
      rescaled by ClampDelay. */
  function Adapted(f: FrameVal, global: Option<Colormap>, ratio: real): (g: FrameVal)
    ensures g.delay == ClampDelay(f.delay, ratio)
    ensures g.local == if f.local.None? then global else f.local
    ensures g.(delay := f.delay, local := f.local) == f
  {
    f.(local := if f.local.None? then global else f.local, delay := ClampDelay(f.delay, ratio))
  }

  /** Every frame of a source, adapted. */
  function AdaptAll(fs: seq<FrameVal>, global: Option<Colormap>, ratio: real): (r: seq<FrameVal>)
    ensures |r| == |fs|
    ensures forall k :: 0 <= k < |fs| ==> r[k] == Adapted(fs[k], global, ratio)
  {
    seq(|fs|, k requires 0 <= k < |fs| => Adapted(fs[k], global, ratio))
  }

  /** Every delay of the frames lies in [MIN_DELAY, MAX_DELAY]. */
  predicate DelaysInRange(fs: seq<FrameVal>) {
    forall k :: 0 <= k < |fs| ==> MIN_DELAY <= fs[k].delay <= MAX_DELAY
  }

  /** The sum of the delays (the `j` of the loop-count synthesis). */
  function TotalDelay(fs: seq<FrameVal>): int
    decreases |fs|
  {
    if fs == [] then 0 else fs[0].delay + TotalDelay(fs[1..])
  }

  /** Delays of at least MIN_DELAY add up to at least MIN_DELAY per frame. */
  lemma {:induction false} TotalDelayBound(fs: seq<FrameVal>)
    requires DelaysInRange(fs)
    ensures TotalDelay(fs) >= MIN_DELAY * |fs|
    decreases |fs|
  {
    if fs != [] {
      var front := fs[1..];
      assert DelaysInRange(front) by {
        forall k | 0 <= k < |front| ensures MIN_DELAY <= front[k].delay <= MAX_DELAY {
          assert front[k] == fs[k + 1];
        }
      }
      TotalDelayBound(front);
    }
  }

  /** Adding a frame at the end adds its delay. */
  lemma {:induction false} TotalDelaySnoc(fs: seq<FrameVal>, f: FrameVal)
    ensures TotalDelay(fs + [f]) == TotalDelay(fs) + f.delay
    decreases |fs|
  {
    if fs != [] {
      assert (fs + [f])[1..] == fs[1..] + [f];
      TotalDelaySnoc(fs[1..], f);
    }
  }

  /** c copies of s, one after the other. */
  function Repeat<T>(s: seq<T>, c: nat): (r: seq<T>)
    ensures |r| == c * |s|
    decreases c
  {
    if c == 0 then [] else Repeat(s, c - 1) + s
  }

  /** Entry j of copy i of the repetition is entry j of s. */
  lemma {:induction false} RepeatIndex<T>(s: seq<T>, c: nat, i: nat, j: nat)
    requires i < c && j < |s|
    ensures i * |s| + j < |Repeat(s, c)| && Repeat(s, c)[i * |s| + j] == s[j]
    decreases c
  {
    var r := Repeat(s, c - 1);
    assert Repeat(s, c) == r + s;
    assert |r| == (c - 1) * |s|;
    if i < c - 1 {
      RepeatIndex(s, c - 1, i, j);
      assert i * |s| + j < |r| by {
        assert i * |s| + j < (i + 1) * |s| <= (c - 1) * |s|;
      }
    } else {
      assert i * |s| == |r|;
    }
  }

  /** Repeating keeps a property every entry has. */
  lemma {:induction false} RepeatInRange(s: seq<FrameVal>, c: nat)
    requires DelaysInRange(s)
    ensures DelaysInRange(Repeat(s, c))
    decreases c
  {
    if c > 0 {
      RepeatInRange(s, c - 1);
      var r := Repeat(s, c - 1);
      assert Repeat(s, c) == r + s;
      forall k | 0 <= k < |r + s| ensures MIN_DELAY <= (r + s)[k].delay <= MAX_DELAY {
        if k < |r| { assert (r + s)[k] == r[k]; } else { assert (r + s)[k] == s[k - |r|]; }
      }
    }
  }

  /** How many extra copies of a source of n frames are appended: none
      unless n > 1 and the loop count is non-negative; then the loop count
      capped at MAX_LOOPS, except that a loop count of 0 (loop forever) in
      a slideshow that already had frames is replaced by
      `(int)(ONE_FRAME_DELAY * ratio / total)`, total being the summed
      rescaled delays of the source; a negative result means no copies. */
  function Copies(n: int, loopcount: int, first: int, total: int, ratio: real): (c: nat)
    requires n > 1 && loopcount == 0 && first > 0 ==> total > 0
    ensures !(n > 1 && loopcount >= 0) ==> c == 0
    ensures n > 1 && loopcount > 0 ==> c == Min(loopcount, MAX_LOOPS)
    ensures n > 1 && loopcount == 0 && first <= 0 ==> c == 0
    ensures n > 1 && loopcount == 0 && first > 0 ==>
      c == Max(0, TruncReal(ONE_FRAME_DELAY as real * ratio / total as real))
  {
    if n > 1 && loopcount >= 0 then
      var loop := Min(loopcount, MAX_LOOPS);
      if loop == 0 && first > 0 then Max(0, TruncReal(ONE_FRAME_DELAY as real * ratio / total as real))
      else loop
    else 0
  }

  /** The frames add_stream_to_slideshow appends, before the repetition. */
  function Added(add: seq<FrameVal>, global: Option<Colormap>, ratio: real): seq<FrameVal> {
    AdaptAll(SourceFrames(add), global, ratio)
  }

  /** The number of extra copies for a source merged into `prev`. */
  function CopiesFor(prev: seq<FrameVal>, add: seq<FrameVal>, global: Option<Colormap>,
                     loopcount: int, ratio: real): nat
  {
    var added := Added(add, global, ratio);
    TotalDelayBound(added);
    Copies(|add|, loopcount, |prev|, TotalDelay(added), ratio)
  }

  /** The slideshow's frames after merging a source: the prev frames, the
      adapted source frames, and then the extra copies of the latter. */
  function MergedFrames(prev: seq<FrameVal>, add: seq<FrameVal>, global: Option<Colormap>,
                        loopcount: int, ratio: real): seq<FrameVal>
  {
    var added := Added(add, global, ratio);
    prev + added + Repeat(added, CopiesFor(prev, add, global, loopcount, ratio))
  }

  /** Every frame a merge appends has its delay in [MIN_DELAY, MAX_DELAY],
      so merging keeps the slideshow's delays in that range. */
  lemma MergedDelays(prev: seq<FrameVal>, add: seq<FrameVal>, global: Option<Colormap>,
                     loopcount: int, ratio: real)
    requires DelaysInRange(prev)
    ensures DelaysInRange(MergedFrames(prev, add, global, loopcount, ratio))
  {
    var added := Added(add, global, ratio);
    var c := CopiesFor(prev, add, global, loopcount, ratio);
    RepeatInRange(added, c);
    var r := Repeat(added, c);
    forall k | 0 <= k < |prev + added + r| ensures MIN_DELAY <= (prev + added + r)[k].delay <= MAX_DELAY {
      if k < |prev| {
        assert (prev + added + r)[k] == prev[k];
      } else if k < |prev| + |added| {
        assert (prev + added + r)[k] == added[k - |prev|];
      } else {
        assert (prev + added + r)[k] == r[k - |prev| - |added|];
      }
    }
  }

  /** The frame count after a merge: n frames of a source of n frames,
      times 1 + min(loopcount, MAX_LOOPS) when it loops a fixed number of
      times, and a synthesised repetition for a loop-forever source merged
      after other frames. */
  lemma MergedCount(prev: seq<FrameVal>, add: seq<FrameVal>, global: Option<Colormap>,
                    loopcount: int, ratio: real)
    ensures var n := |add|;
      |MergedFrames(prev, add, global, loopcount, ratio)|
        == |prev| + n * (1 + CopiesFor(prev, add, global, loopcount, ratio))
    ensures |add| > 1 && loopcount > 0 ==>
      CopiesFor(prev, add, global, loopcount, ratio) == Min(loopcount, MAX_LOOPS)
    ensures !(|add| > 1 && loopcount > 0) && !(|add| > 1 && loopcount == 0 && |prev| > 0) ==>
      |MergedFrames(prev, add, global, loopcount, ratio)| == |prev| + |add|
  {
    var added := Added(add, global, ratio);
    var c := CopiesFor(prev, add, global, loopcount, ratio);
    assert |Repeat(added, c)| == c * |add|;
    Distribute(|add|, c);
  }

  lemma Distribute(n: nat, c: nat)
    ensures n * (1 + c) == n + c * n
  {
  }

  /** An extra copy repeats the appended frames in order: entry
      |prev| + (i + 1) * n + j of the merge is appended frame j. */
  lemma MergedRepeats(prev: seq<FrameVal>, add: seq<FrameVal>, global: Option<Colormap>,
                      loopcount: int, ratio: real, i: nat, j: nat)
    requires i < CopiesFor(prev, add, global, loopcount, ratio) && j < |add|
    ensures var m := MergedFrames(prev, add, global, loopcount, ratio);
      |prev| + (i + 1) * |add| + j < |m| && m[|prev| + (i + 1) * |add| + j] == m[|prev| + j]
  {
    var added := Added(add, global, ratio);
    var c := CopiesFor(prev, add, global, loopcount, ratio);
    RepeatIndex(added, c, i, j);
    var m := prev + added + Repeat(added, c);
    assert m[|prev| + j] == added[j];
    assert |prev| + (i + 1) * |add| + j == |prev| + |added| + (i * |added| + j);
  }

  // ---------------------------------------------------------------------
  // Stream header

  /** The stream fields a merge touches besides the frames. */
  datatype Header = Header(screenWidth: int, screenHeight: int, loopcount: int,
                           global: Option<Colormap>, background: int)

  function HeaderOf(s: Stream): Header
    reads s`screenWidth, s`screenHeight, s`loopcount, s`global, s`background
  {
    Header(s.screenWidth, s.screenHeight, s.loopcount, s.global, s.background)
  }

  /** The header after a merge: palette and background are copied only
      into a slideshow without frames from a source with a global palette,
      the loop count only into a slideshow without frames, and the screen
      grows to the larger of the two on each axis. */
  function MergedHeader(h: Header, empty: bool, add: Header): (r: Header)
    ensures r.screenWidth == Max(h.screenWidth, add.screenWidth)
    ensures r.screenHeight == Max(h.screenHeight, add.screenHeight)
    ensures r.loopcount == if empty then add.loopcount else h.loopcount
    ensures (r.global, r.background) ==
      if empty && add.global.Some? then (add.global, add.background) else (h.global, h.background)
  {
    var (global, background) :=
      if empty && add.global.Some? then (add.global, add.background) else (h.global, h.background);
    Header(Max(h.screenWidth, add.screenWidth), Max(h.screenHeight, add.screenHeight),
           if empty then add.loopcount else h.loopcount, global, background)
  }

  // ---------------------------------------------------------------------
  // Frame objects

  /** clone_image_skeleton: a new frame with the content of `src` sharing
      its compressed data (so it does not own it), no owner and no
      reference count; the source frame gains a reference. */
  method CloneImageSkeleton(src: Image) returns (ngfi: Image)
    modifies src`refcount
    ensures fresh(ngfi) && Frame(ngfi) == Frame(src)
    ensures !ngfi.freeCompressed && ngfi.userData == NoOwner && ngfi.refcount == 0
    ensures src.refcount == old(src.refcount) + 1
  {
    ngfi := new Image(Frame(src), false);
    src.refcount := src.refcount + 1;
  }

  /** One turn of the frame loop of add_stream_to_slideshow: a frame that
      has an owner (it belongs to a built-in picture or to another
      slideshow) is cloned; the frame or its clone is then adapted. */
  method MergeFrame(src: Image, global: Option<Colormap>, ratio: real) returns (gfi: Image)
    modifies src`content, src`refcount
    ensures Frame(gfi) == Adapted(old(Frame(src)), global, ratio)
    ensures gfi.userData == NoOwner && src.userData == old(src.userData)
    ensures old(src.userData) == NoOwner ==> gfi == src && src.refcount == old(src.refcount)
    ensures old(src.userData) != NoOwner ==>
      && fresh(gfi) && !gfi.freeCompressed
      && src.refcount == old(src.refcount) + 1 && Frame(src) == old(Frame(src))
  {
    gfi := src;
    if src.userData != NoOwner {
      gfi := CloneImageSkeleton(src);
    }
    if gfi.content.local.None? && global.Some? {
      gfi.content := gfi.content.(local := global);
    }
    gfi.content := gfi.content.(delay := ClampDelay(gfi.content.delay, ratio));
  }

  /** No frame of the sequence has an owner. */
  ghost predicate Unowned(imgs: seq<Image>)
    reads (set img | img in imgs)`userData
  {
    forall k :: 0 <= k < |imgs| ==> imgs[k].userData == NoOwner
  }

  /** The owners of a sequence of frames. */
  ghost function OwnersOf(imgs: seq<Image>): (os: seq<Owner>)
    reads set img | img in imgs
    ensures |os| == |imgs| && forall k :: 0 <= k < |imgs| ==> os[k] == imgs[k].userData
  {
    seq(|imgs|, k requires 0 <= k < |imgs| reads set img | img in imgs => imgs[k].userData)
  }

  /** The content of frames given one by one is their FramesOf. */
  lemma FramesOfIs(imgs: seq<Image>, fs: seq<FrameVal>)
    requires |imgs| == |fs| && forall k :: 0 <= k < |imgs| ==> Frame(imgs[k]) == fs[k]
    ensures FramesOf(imgs) == fs
  {
  }

  /** The reference counts of a sequence of frames. */
  ghost function RefcountsOf(imgs: seq<Image>): (rs: seq<int>)
    reads set img | img in imgs
    ensures |rs| == |imgs| && forall k :: 0 <= k < |imgs| ==> rs[k] == imgs[k].refcount
  {
    seq(|imgs|, k requires 0 <= k < |imgs| reads set img | img in imgs => imgs[k].refcount)
  }

  /** The frame loop of add_stream_to_slideshow over the source frames
      `imgs`: every frame, or a clone of it when it has an owner, adapted
      and appended in order; the frames already in the slideshow keep their
      content. A frame with an owner is never appended itself: a fresh
      clone is, and the frame keeps its content and gains one reference. */
  method AppendFrames(imgs: seq<Image>, global: Option<Colormap>, gfs: Stream, ratio: real)
    returns (ghost added: seq<Image>)
    requires Distinct(imgs) && forall k :: 0 <= k < |imgs| ==> imgs[k] !in gfs.images
    modifies gfs`images
    modifies (set img | img in imgs)`content
    modifies (set img | img in imgs)`refcount
    ensures gfs.images == old(gfs.images) + added && |added| == |imgs|
    ensures FramesOf(added) == AdaptAll(old(FramesOf(imgs)), global, ratio)
    ensures FramesOf(old(gfs.images)) == old(FramesOf(gfs.images))
    ensures Unowned(added)
    ensures forall k :: 0 <= k < |added| && old(imgs[k].userData) == NoOwner ==>
      added[k] == imgs[k] && imgs[k].refcount == old(imgs[k].refcount)
    ensures forall k :: 0 <= k < |added| && old(imgs[k].userData) != NoOwner ==>
      && fresh(added[k]) && Frame(imgs[k]) == old(Frame(imgs[k]))
      && imgs[k].refcount == old(imgs[k].refcount) + 1
  {
    ghost var srcs := FramesOf(imgs);
    ghost var want := AdaptAll(srcs, global, ratio);
    ghost var owners := OwnersOf(imgs);
    ghost var rcs := RefcountsOf(imgs);
    ghost var base := gfs.images;
    ghost var prior := FramesOf(base);
    added := [];
    var i := 0;
    while i < |imgs|
      invariant 0 <= i <= |imgs| && |added| == i
      invariant gfs.images == base + added
      invariant forall k :: 0 <= k < i ==> Frame(added[k]) == want[k] && added[k].userData == NoOwner
      invariant forall k :: 0 <= k < i ==> added[k] !in imgs[i..]
      invariant forall k :: 0 <= k < i && owners[k] == NoOwner ==> added[k] == imgs[k]
      invariant forall k :: 0 <= k < i ==> fresh(added[k]) || added[k] == imgs[k]
      invariant forall k :: 0 <= k < |imgs| && (i <= k || owners[k] != NoOwner) ==> Frame(imgs[k]) == srcs[k]
      invariant forall k :: 0 <= k < |imgs| ==>
        imgs[k].refcount == rcs[k] + (if k < i && owners[k] != NoOwner then 1 else 0)
      invariant forall k :: 0 <= k < |base| ==> Frame(base[k]) == prior[k]
    {
      assert imgs[i] !in base;
      var gfi := AppendStep(imgs, global, gfs, ratio, i, imgs[i], owners, rcs, base, added, prior, srcs, want);
      added := added + [gfi];
      i := i + 1;
    }
    FramesOfIs(added, want);
    FramesOfIs(base, prior);
  }

  /** One pass of the frame loop of add_stream_to_slideshow: source frame
      i, merged, is appended, and no frame other than it changes. */
  method AppendStep(imgs: seq<Image>, global: Option<Colormap>, gfs: Stream, ratio: real, i: int,
                    src: Image, ghost owners: seq<Owner>, ghost rcs: seq<int>, ghost base: seq<Image>,
                    ghost added: seq<Image>, ghost prior: seq<FrameVal>, ghost srcs: seq<FrameVal>,
                    ghost want: seq<FrameVal>)
    returns (gfi: Image)
    requires Distinct(imgs) && 0 <= i < |imgs| && src == imgs[i]
    requires |owners| == |imgs| && src.userData == owners[i] && |rcs| == |imgs|
    requires src !in base && gfs.images == base + added && |added| == i
    requires forall k :: 0 <= k < i ==> added[k] !in imgs[i..]
    requires forall k :: 0 <= k < i && owners[k] == NoOwner ==> added[k] == imgs[k]
    requires |srcs| == |imgs| && want == AdaptAll(srcs, global, ratio) && |prior| == |base|
    requires forall k :: 0 <= k < i ==> Frame(added[k]) == want[k] && added[k].userData == NoOwner
    requires forall k :: 0 <= k < |imgs| && (i <= k || owners[k] != NoOwner) ==> Frame(imgs[k]) == srcs[k]
    requires forall k :: 0 <= k < |imgs| ==>
      imgs[k].refcount == rcs[k] + (if k < i && owners[k] != NoOwner then 1 else 0)
    requires forall k :: 0 <= k < |base| ==> Frame(base[k]) == prior[k]
    modifies gfs`images, src`content, src`refcount
    ensures gfs.images == base + (added + [gfi])
    ensures forall k :: 0 <= k <= i ==> (added + [gfi])[k] !in imgs[i + 1..]
    ensures forall k :: 0 <= k <= i && owners[k] == NoOwner ==> (added + [gfi])[k] == imgs[k]
    ensures forall k :: 0 <= k <= i ==>
      Frame((added + [gfi])[k]) == want[k] && (added + [gfi])[k].userData == NoOwner
    ensures forall k :: 0 <= k < |imgs| && (i < k || owners[k] != NoOwner) ==> Frame(imgs[k]) == srcs[k]
    ensures forall k :: 0 <= k < |imgs| ==>
      imgs[k].refcount == rcs[k] + (if k <= i && owners[k] != NoOwner then 1 else 0)
    ensures forall k :: 0 <= k < |base| ==> Frame(base[k]) == prior[k]
    ensures fresh(gfi) || gfi == src
  {
    gfi := MergeFrame(src, global, ratio);
    gfs.images := gfs.images + [gfi];
    assert base + added + [gfi] == base + (added + [gfi]);
  }

  /** The delay-summing loop of the loop-count synthesis. */
  method SumDelays(imgs: seq<Image>) returns (j: int)
    ensures j == TotalDelay(FramesOf(imgs))
  {
    ghost var fs := FramesOf(imgs);
    j := 0;
    var i := 0;
    while i < |imgs|
      invariant 0 <= i <= |imgs|
      invariant j == TotalDelay(fs[..i])
    {
      assert fs[..i + 1] == fs[..i] + [fs[i]];
      TotalDelaySnoc(fs[..i], fs[i]);
      j := j + imgs[i].content.delay;
      i := i + 1;
    }
    assert fs[..i] == fs;
  }

  /** The number of extra copies add_stream_to_slideshow makes of the n
      frames it just appended at `first`: the source's loop count capped at
      MAX_LOOPS, or, for a source looping forever after frames already in
      the slideshow, as many copies as fill ONE_FRAME_DELAY scaled by the
      ratio. A negative result asks for no copies. */
  method LoopCount(gfs: Stream, n: int, loopcount: int, ratio: real, ghost added: seq<Image>)
    returns (loop: int)
    requires |added| == n <= |gfs.images| && gfs.images[|gfs.images| - n..] == added
    requires DelaysInRange(FramesOf(added))
    ensures n > 1 ==> TotalDelay(FramesOf(added)) > 0
    ensures Max(loop, 0) == Copies(n, loopcount, |gfs.images| - n, TotalDelay(FramesOf(added)), ratio)
  {
    TotalDelayBound(FramesOf(added));
    loop := 0;
    if n > 1 && loopcount >= 0 {
      loop := if loopcount <= MAX_LOOPS then loopcount else MAX_LOOPS;
      var first := |gfs.images| - n;
      if loop == 0 && first > 0 {
        var j := SumDelays(gfs.images[first..]);
        loop := TruncReal(ONE_FRAME_DELAY as real * ratio / j as real);
      }
    }
  }

  /** One pass of the repetition loop: append again the n frames at `first`. */
  method AppendCopy(gfs: Stream, first: int, n: int, ghost added: seq<Image>)
    requires 0 <= first && |added| == n && first + n <= |gfs.images| && gfs.images[first..first + n] == added
    modifies gfs`images
    ensures gfs.images == old(gfs.images) + added
  {
    ghost var base := gfs.images;
    var k := 0;
    while k < n
      invariant 0 <= k <= n
      invariant gfs.images == base + added[..k]
    {
      assert gfs.images[first + k] == added[k] by {
        assert base[first + k] == base[first..first + n][k];
      }
      assert added[..k + 1] == added[..k] + [added[k]];
      gfs.images := gfs.images + [gfs.images[first + k]];
      k := k + 1;
    }
    assert added[..n] == added;
  }

  /** One pass of the repetition loop: the n frames at `first`, which are
      the last n of `base`, appended once more after i earlier copies. */
  method RepeatStep(gfs: Stream, first: int, n: int, i: nat, ghost base: seq<Image>, ghost added: seq<Image>)
    requires 0 <= first && |added| == n && first + n == |base| && base[first..] == added
    requires gfs.images == base + Repeat(added, i)
    modifies gfs`images
    ensures gfs.images == base + Repeat(added, i + 1)
  {
    assert gfs.images[first..first + n] == added by {
      assert gfs.images[first..first + n] == base[first..];
    }
    AppendCopy(gfs, first, n, added);
  }

  /** The repetition part of add_stream_to_slideshow: the n frames just
      appended are appended again, in order, Copies times. */
  method RepeatFrames(gfs: Stream, n: int, loopcount: int, ratio: real, ghost base: seq<Image>,
                      ghost added: seq<Image>)
    returns (ghost copies: nat)
    requires |added| == n <= |gfs.images| && gfs.images[|gfs.images| - n..] == added
    requires DelaysInRange(FramesOf(added))
    modifies gfs`images
    ensures n > 1 ==> old(TotalDelay(FramesOf(added))) > 0
    ensures FramesOf(added) == old(FramesOf(added)) && Unowned(added) == old(Unowned(added))
    ensures FramesOf(base) == old(FramesOf(base))
    ensures copies == Copies(n, loopcount, old(|gfs.images|) - n, old(TotalDelay(FramesOf(added))), ratio)
    ensures gfs.images == old(gfs.images) + Repeat(added, copies)
  {
    var loop := LoopCount(gfs, n, loopcount, ratio, added);
    var first := |gfs.images| - n;
    ghost var start := gfs.images;
    var i := 0;
    while i < loop
      invariant 0 <= i <= Max(loop, 0)
      invariant gfs.images == start + Repeat(added, i)
    {
      RepeatStep(gfs, first, n, i, start, added);
      i := i + 1;
    }
    copies := Max(loop, 0);
  }

  /** The delay adaptation of a one-frame source: its frame gets
      ONE_FRAME_DELAY. The frame is the source's own, so a built-in
      picture's shared frame is changed too. */
  method AdaptSingleFrame(imgs: seq<Image>, ghost base: seq<Image>)
    requires |imgs| == 1 ==> imgs[0] !in base
    modifies (set img | img in imgs && |imgs| == 1)`content
    ensures FramesOf(imgs) == SourceFrames(old(FramesOf(imgs)))
    ensures FramesOf(base) == old(FramesOf(base)) && OwnersOf(imgs) == old(OwnersOf(imgs))
  {
    ghost var srcs := FramesOf(imgs);
    ghost var prior := FramesOf(base);
    if |imgs| == 1 {
      imgs[0].content := imgs[0].content.(delay := ONE_FRAME_DELAY);
    }
    FramesOfIs(imgs, SourceFrames(srcs));
    FramesOfIs(base, prior);
  }

  /** The header part of add_stream_to_slideshow. */
  method MergeStreamHeader(add: Stream, gfs: Stream, ghost imgs: seq<Image>, ghost base: seq<Image>)
    requires add != gfs
    modifies gfs`global, gfs`background, gfs`loopcount, gfs`screenWidth, gfs`screenHeight
    ensures HeaderOf(gfs) == MergedHeader(old(HeaderOf(gfs)), |gfs.images| == 0, HeaderOf(add))
    ensures FramesOf(imgs) == old(FramesOf(imgs)) && OwnersOf(imgs) == old(OwnersOf(imgs))
    ensures FramesOf(base) == old(FramesOf(base))
  {
    if |gfs.images| == 0 {
      if add.global.Some? {
        gfs.global := add.global;
        gfs.background := add.background;
      }
      gfs.loopcount := add.loopcount;
    }
    if add.screenWidth > gfs.screenWidth {
      gfs.screenWidth := add.screenWidth;
    }
    if add.screenHeight > gfs.screenHeight {
      gfs.screenHeight := add.screenHeight;
    }
  }

  /** add_stream_to_slideshow up to the repetition: the one-frame delay,
      the header, and the frame loop. */
  method AddFrames(add: Stream, gfs: Stream, ratio: real) returns (ghost added: seq<Image>)
    requires add != gfs && Distinct(add.images)
    requires forall k :: 0 <= k < |add.images| ==> add.images[k] !in gfs.images
    modifies gfs`images, gfs`global, gfs`background, gfs`loopcount, gfs`screenWidth, gfs`screenHeight
    modifies (set img | img in add.images)`content
    modifies (set img | img in add.images)`refcount
    ensures gfs.images == old(gfs.images) + added && |added| == |add.images|
    ensures FramesOf(added) == Added(old(FramesOf(add.images)), add.global, ratio)
    ensures FramesOf(old(gfs.images)) == old(FramesOf(gfs.images))
    ensures HeaderOf(gfs) == MergedHeader(old(HeaderOf(gfs)), old(|gfs.images|) == 0, HeaderOf(add))
    ensures Unowned(added)
    ensures forall k :: 0 <= k < |added| && old(add.images[k].userData) == NoOwner ==>
      added[k] == add.images[k] && add.images[k].refcount == old(add.images[k].refcount)
    ensures forall k :: 0 <= k < |added| && old(add.images[k].userData) != NoOwner ==>
      && fresh(added[k]) && Frame(add.images[k]) == SourceFrame(old(Frame(add.images[k])), |added|)
      && add.images[k].refcount == old(add.images[k].refcount) + 1
    ensures forall k :: 0 <= k < |added| ==> fresh(added[k]) || added[k] == add.images[k]
  {
    ghost var base := gfs.images;
    var imgs := add.images;
    AdaptSingleFrame(imgs, base);
    MergeStreamHeader(add, gfs, imgs, base);
    added := AppendFrames(imgs, add.global, gfs, ratio);
  }

  /** add_stream_to_slideshow: merge the source `add` into the slideshow
      `gfs`. The slideshow's frame contents become MergedFrames and its
      header MergedHeader; the appended entries are the source's unowned
      frames themselves and clones of its owned ones, followed by `copies`
      repetitions of the same references. */
  method AddStreamToSlideshow(add: Stream, gfs: Stream, ratio: real)
    returns (ghost added: seq<Image>, ghost copies: nat)
    requires add != gfs && Distinct(add.images)
    requires forall k :: 0 <= k < |add.images| ==> add.images[k] !in gfs.images
    modifies gfs`images, gfs`global, gfs`background, gfs`loopcount, gfs`screenWidth, gfs`screenHeight
    modifies (set img | img in add.images)`content
    modifies (set img | img in add.images)`refcount
    ensures FramesOf(gfs.images) ==
      MergedFrames(old(FramesOf(gfs.images)), old(FramesOf(add.images)), add.global, add.loopcount, ratio)
    ensures HeaderOf(gfs) == MergedHeader(old(HeaderOf(gfs)), old(|gfs.images|) == 0, HeaderOf(add))
    ensures copies == CopiesFor(old(FramesOf(gfs.images)), old(FramesOf(add.images)), add.global, add.loopcount, ratio)
    ensures |added| == |add.images| && gfs.images == old(gfs.images) + added + Repeat(added, copies)
    ensures Unowned(added)
    ensures forall k :: 0 <= k < |added| && old(add.images[k].userData) == NoOwner ==>
      added[k] == add.images[k] && add.images[k].refcount == old(add.images[k].refcount)
    ensures forall k :: 0 <= k < |added| && old(add.images[k].userData) != NoOwner ==>
      && fresh(added[k]) && Frame(add.images[k]) == SourceFrame(old(Frame(add.images[k])), |added|)
      && add.images[k].refcount == old(add.images[k].refcount) + 1
    ensures forall k :: 0 <= k < |added| ==> fresh(added[k]) || added[k] == add.images[k]
  {
    ghost var base := gfs.images;
    added := AddFrames(add, gfs, ratio);
    assert gfs.images[|gfs.images| - |added|..] == added;
    copies := RepeatFrames(gfs, |add.images|, add.loopcount, ratio, base, added);
    FramesOfRepeat(added, copies);
    FramesOfConcat(base + added, Repeat(added, copies));
    FramesOfConcat(base, added);
  }

  /** FramesOf distributes over concatenation. */
  lemma FramesOfConcat(a: seq<Image>, b: seq<Image>)
    ensures FramesOf(a + b) == FramesOf(a) + FramesOf(b)
  {
    FramesOfIs(a + b, FramesOf(a) + FramesOf(b));
  }

  /** FramesOf commutes with repetition. */
  lemma {:induction false} FramesOfRepeat(s: seq<Image>, c: nat)
    ensures FramesOf(Repeat(s, c)) == Repeat(FramesOf(s), c)
    decreases c
  {
    if c > 0 {
      FramesOfRepeat(s, c - 1);
      FramesOfConcat(Repeat(s, c - 1), s);
    }
  }
}
