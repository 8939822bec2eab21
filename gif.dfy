/** The objects of the GIF library that the slideshow code works on: images
    (frames) and streams, plus the per-stream render cache (PictureList)
    that pictures.c hangs off every frame's `user_data`. Only the fields the
    slideshow code reads or writes are modelled. */
module Gif {

  import opened Wrappers

  /** Identity of a colour map; colour maps are shared, never copied. */
  type Colormap = int

  /** What a frame's `user_data` points to: nothing, the built-in stream the
      frame was decoded into (marks the frame as shared), or the render cache
      of the composed stream the frame belongs to. */
  datatype Owner = NoOwner | BuiltIn(stream: Stream) | Listed(list: PictureList)

  /** The content of one frame, as a decoder produces it: position, size,
      transparent colour index, delay (in hundredths of a second), local
      colour map, and the identity of the compressed pixel data (clones
      share it). */
  datatype FrameVal = FrameVal(
    left: int, top: int, width: int, height: int,
    transparent: int, delay: int, local: Option<Colormap>, compressed: int)

  /** The value-level content of one decoded GIF (a built-in record or a file). */
  datatype SourceVal = SourceVal(
    frames: seq<FrameVal>, screenWidth: int, screenHeight: int,
    loopcount: int, global: Option<Colormap>, background: int, errors: int)

  /** A frame (Gif_Image). Its position, size, transparent colour, delay,
      local colour map and compressed data are kept together as one value,
      `content`; the library fields the slideshow code uses for sharing are
      separate. */
  class Image {
    var content: FrameVal
    var freeCompressed: bool
    var userData: Owner
    var refcount: int

    /** Gif_NewImage followed by filling in the frame's content. */
    constructor (v: FrameVal, ownsData: bool)
      ensures Frame(this) == v
      ensures freeCompressed == ownsData && userData == NoOwner && refcount == 0
    {
      content := v;
      freeCompressed, userData, refcount := ownsData, NoOwner, 0;
    }
  }

  /** The content of a frame. */
  function Frame(img: Image): FrameVal
    reads img`content
  {
    img.content
  }

  /** The content of a sequence of frames. */
  function FramesOf(imgs: seq<Image>): (fs: seq<FrameVal>)
    reads set img | img in imgs
    ensures |fs| == |imgs|
    ensures forall k :: 0 <= k < |imgs| ==> fs[k] == Frame(imgs[k])
  {
    seq(|imgs|, k requires 0 <= k < |imgs| reads set img | img in imgs => Frame(imgs[k]))
  }

  class Stream {
    var images: seq<Image>
    var screenWidth: int
    var screenHeight: int
    /** Negative: no loop extension; 0: loop forever; n: repeat n times. */
    var loopcount: int
    var global: Option<Colormap>
    var background: int
    /** Number of decoding errors. */
    var errors: int

    /** Gif_NewStream: an empty stream. */
    constructor Empty()
      ensures images == [] && screenWidth == 0 && screenHeight == 0
      ensures loopcount == -1 && global == None && background == 0 && errors == 0
    {
      images, screenWidth, screenHeight := [], 0, 0;
      loopcount, global, background, errors := -1, None, 0, 0;
    }
  }

  /** No frame occurs twice in `s`. */
  ghost predicate Distinct(s: seq<Image>) {
    forall i, j :: 0 <= i < j < |s| ==> s[i] != s[j]
  }

  /** The decoder (Gif_FullReadRecord / Gif_FullReadFile) seen from the
      slideshow code: a fresh stream of fresh frames holding the decoded
      content, each frame owning its compressed data. */
  method Decode(v: SourceVal) returns (s: Stream)
    ensures fresh(s) && Distinct(s.images)
    ensures |s.images| == |v.frames|
    ensures forall i :: 0 <= i < |s.images| ==>
      fresh(s.images[i]) && Frame(s.images[i]) == v.frames[i] &&
      s.images[i].userData == NoOwner && s.images[i].freeCompressed && s.images[i].refcount == 0
    ensures s.screenWidth == v.screenWidth && s.screenHeight == v.screenHeight
    ensures s.loopcount == v.loopcount && s.global == v.global
    ensures s.background == v.background && s.errors == v.errors
  {
    s := new Stream.Empty();
    s.screenWidth, s.screenHeight := v.screenWidth, v.screenHeight;
    s.loopcount, s.global, s.background, s.errors := v.loopcount, v.global, v.background, v.errors;
    var i := 0;
    while i < |v.frames|
      invariant 0 <= i <= |v.frames| && |s.images| == i
      invariant fresh(s) && Distinct(s.images)
      invariant s.screenWidth == v.screenWidth && s.screenHeight == v.screenHeight
      invariant s.loopcount == v.loopcount && s.global == v.global
      invariant s.background == v.background && s.errors == v.errors
      invariant forall k :: 0 <= k < i ==>
        fresh(s.images[k]) && Frame(s.images[k]) == v.frames[k] &&
        s.images[k].userData == NoOwner && s.images[k].freeCompressed && s.images[k].refcount == 0
    {
      var img := new Image(v.frames[i], true);
      s.images := s.images + [img];
      i := i + 1;
    }
  }

  /** The per-stream render cache: for every port, one rendered pixmap per
      frame of the stream (0 while not yet rendered). */
  class PictureList {
    var clockXOff: int
    var clockYOff: int
    var gfs: Stream
    var refcount: int
    var frames: seq<seq<int>>
    /** Set once the cache has been released. */
    var freed: bool

    constructor (gfs: Stream, clockXOff: int, clockYOff: int)
      ensures this.gfs == gfs && this.clockXOff == clockXOff && this.clockYOff == clockYOff
      ensures refcount == 0 && frames == [] && !freed
    {
      this.gfs, this.clockXOff, this.clockYOff := gfs, clockXOff, clockYOff;
      refcount, frames, freed := 0, [], false;
    }
  }
}
