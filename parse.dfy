/** parse_slideshow: builds a slideshow stream from a slideshow text by
    merging, token after token, built-in pictures and GIF files into a new
    stream; then fixes an empty screen size and attaches the render cache
    (add_picturelist), which free_picturelist releases. */
module Parse {

  import opened Wrappers
  import opened Gif
  import opened Compose
  import opened Catalog
  import opened Tokens
  import opened Resolve

  // ---------------------------------------------------------------------
  // The slideshow as a value

  /** The frames and header of a slideshow under construction. */
  datatype Slideshow = Slideshow(frames: seq<FrameVal>, header: Header)

  /** The header of a decoded source. */
  function SourceHeader(v: SourceVal): Header {
    Header(v.screenWidth, v.screenHeight, v.loopcount, v.global, v.background)
  }

  /** The slideshow after merging source v (add_stream_to_slideshow). */
  function Merged(s: Slideshow, v: SourceVal, ratio: real): (r: Slideshow)
    ensures |r.frames| >= |s.frames| + |v.frames|
    ensures r.frames[..|s.frames|] == s.frames
  {
    MergedCount(s.frames, v.frames, v.global, v.loopcount, ratio);
    var fs := MergedFrames(s.frames, v.frames, v.global, v.loopcount, ratio);
    assert fs[..|s.frames|] == s.frames;
    Slideshow(fs, MergedHeader(s.header, |s.frames| == 0, SourceHeader(v)))
  }

  /** The slideshow after merging the sources in order. */
  function Play(s: Slideshow, srcs: seq<SourceVal>, ratio: real): Slideshow
    decreases |srcs|
  {
    if srcs == [] then s
    else Merged(Play(s, srcs[..|srcs| - 1], ratio), srcs[|srcs| - 1], ratio)
  }

  /** Playing one source is merging it. */
  lemma PlayOne(s: Slideshow, v: SourceVal, ratio: real)
    ensures Play(s, [v], ratio) == Merged(s, v, ratio)
  {
    assert [v][..0] == [];
  }

  /** The new stream of parse_slideshow: no frames, no screen, no palette,
      loop forever. */
  const START: Slideshow := Slideshow([], Header(0, 0, 0, None, 0))

  /** The slideshow the sources compose to. */
  function Composed(srcs: seq<SourceVal>, ratio: real): Slideshow {
    Play(START, srcs, ratio)
  }

  /** Every delay of a composed slideshow is in [MIN_DELAY, MAX_DELAY]. */
  lemma {:induction false} ComposedDelays(srcs: seq<SourceVal>, ratio: real)
    ensures DelaysInRange(Composed(srcs, ratio).frames)
    decreases |srcs|
  {
    if srcs != [] {
      ComposedDelays(srcs[..|srcs| - 1], ratio);
      var s, v := Composed(srcs[..|srcs| - 1], ratio), srcs[|srcs| - 1];
      MergedDelays(s.frames, v.frames, v.global, v.loopcount, ratio);
    }
  }

  /** A later source only appends: the frames composed from a prefix of
      the sources begin the frames of all of them, and each source adds at
      least its own frames. */
  lemma ComposedGrows(srcs: seq<SourceVal>, v: SourceVal, ratio: real)
    ensures var before, after := Composed(srcs, ratio).frames, Composed(srcs + [v], ratio).frames;
      |after| >= |before| + |v.frames| && after[..|before|] == before
  {
    assert (srcs + [v])[..|srcs|] == srcs;
  }

  /** The screen of a composed slideshow is the per-axis maximum of the
      sources' screens (and 0 without sources). */
  lemma {:induction false} ComposedScreen(srcs: seq<SourceVal>, ratio: real)
    ensures var h := Composed(srcs, ratio).header;
      && h.screenWidth >= 0 && h.screenHeight >= 0
      && (forall k :: 0 <= k < |srcs| ==> srcs[k].screenWidth <= h.screenWidth && srcs[k].screenHeight <= h.screenHeight)
      && (h.screenWidth == 0 || exists k :: 0 <= k < |srcs| && srcs[k].screenWidth == h.screenWidth)
      && (h.screenHeight == 0 || exists k :: 0 <= k < |srcs| && srcs[k].screenHeight == h.screenHeight)
    decreases |srcs|
  {
    if srcs != [] {
      var front := srcs[..|srcs| - 1];
      ComposedScreen(front, ratio);
      var h0 := Composed(front, ratio).header;
      var h := Composed(srcs, ratio).header;
      forall k | 0 <= k < |srcs| ensures srcs[k].screenWidth <= h.screenWidth && srcs[k].screenHeight <= h.screenHeight {
        if k < |front| {
          assert srcs[k] == front[k];
        }
      }
      if h.screenWidth != 0 && h.screenWidth == h0.screenWidth {
        var k :| 0 <= k < |front| && front[k].screenWidth == h0.screenWidth;
        assert srcs[k] == front[k];
      }
      if h.screenHeight != 0 && h.screenHeight == h0.screenHeight {
        var k :| 0 <= k < |front| && front[k].screenHeight == h0.screenHeight;
        assert srcs[k] == front[k];
      }
    }
  }

  /** The palette, background and loop count come from the first source
      that brings frames: a source merged into a slideshow without frames
      sets them, a later one does not. */
  lemma FirstSourceHeader(v: SourceVal, rest: seq<SourceVal>, ratio: real)
    requires |v.frames| > 0
    ensures var h := Play(Merged(START, v, ratio), rest, ratio).header;
      && h.loopcount == v.loopcount
      && (h.global, h.background) == (if v.global.Some? then (v.global, v.background) else (None, 0))
  {
    var s := Merged(START, v, ratio);
    KeptHeader(s, rest, ratio);
  }

  /** Merging into a slideshow that has frames keeps its palette,
      background and loop count. */
  lemma {:induction false} KeptHeader(s: Slideshow, srcs: seq<SourceVal>, ratio: real)
    requires |s.frames| > 0
    ensures var h := Play(s, srcs, ratio).header;
      h.loopcount == s.header.loopcount && h.global == s.header.global && h.background == s.header.background
    ensures |Play(s, srcs, ratio).frames| > 0
    decreases |srcs|
  {
    if srcs != [] {
      KeptHeader(s, srcs[..|srcs| - 1], ratio);
    }
  }

  // ---------------------------------------------------------------------
  // Sources and the objects they come from

  /** The source value of a stream: its frames and header fields. */
  ghost function SourceOf(s: Stream): SourceVal
    reads s, set img | img in s.images
  {
    SourceVal(FramesOf(s.images), s.screenWidth, s.screenHeight, s.loopcount, s.global, s.background, s.errors)
  }

  /** The slideshow value of a stream. */
  ghost function StateOf(s: Stream): Slideshow
    reads s, set img | img in s.images
  {
    Slideshow(FramesOf(s.images), HeaderOf(s))
  }

  /** Source v is what pick p adds: a file's content as decoded, or, for a
      built-in picture, a stream with the header (loop count forced) and
      the frames, as they are merged, of the record of the entry the pick
      resolves to. */
  predicate Matches(t: seq<Entry>, v: SourceVal, p: Pick) {
    match p
    case FromFile(w) => v == w
    case FromTable(i) =>
      && 0 <= i < |t| && SynonymsResolve(t)
      && var rec := t[Resolved(t, i)].record;
      && SourceFrames(v.frames) == SourceFrames(rec.frames) && v.errors == rec.errors
      && SourceHeader(v) == SourceHeader(rec).(loopcount := ForcedLoop(rec.loopcount))
  }

  /** Sources and picks correspond one to one. */
  predicate AllMatch(t: seq<Entry>, srcs: seq<SourceVal>, ps: seq<Pick>) {
    |srcs| == |ps| && forall k :: 0 <= k < |srcs| ==> Matches(t, srcs[k], ps[k])
  }

  /** The source a pick stands for: the file's GIF, or the record of the
      picture entry the pick resolves to, with "play once" made "loop
      forever". */
  function PickSource(t: seq<Entry>, p: Pick): SourceVal
    requires p.FromTable? ==> 0 <= p.entry < |t| && SynonymsResolve(t)
  {
    match p
    case FromFile(w) => w
    case FromTable(i) =>
      var rec := t[Resolved(t, i)].record;
      rec.(loopcount := ForcedLoop(rec.loopcount))
  }

  /** Every built-in pick names an entry of the table. */
  predicate PicksResolve(t: seq<Entry>, ps: seq<Pick>) {
    forall k :: 0 <= k < |ps| && ps[k].FromTable? ==> 0 <= ps[k].entry < |t| && SynonymsResolve(t)
  }

  /** The sources the picks stand for. */
  function PickSources(t: seq<Entry>, ps: seq<Pick>): (r: seq<SourceVal>)
    requires PicksResolve(t, ps)
    ensures |r| == |ps| && forall k :: 0 <= k < |ps| ==> r[k] == PickSource(t, ps[k])
  {
    seq(|ps|, k requires 0 <= k < |ps| => PickSource(t, ps[k]))
  }

  /** A merge depends on a source only through its frames as they are
      merged and its header. */
  lemma MergedBySource(s: Slideshow, v: SourceVal, w: SourceVal, ratio: real)
    requires SourceFrames(v.frames) == SourceFrames(w.frames) && SourceHeader(v) == SourceHeader(w)
    ensures Merged(s, v, ratio) == Merged(s, w, ratio)
  {
    assert |v.frames| == |w.frames|;
    assert Added(v.frames, v.global, ratio) == Added(w.frames, w.global, ratio);
    assert CopiesFor(s.frames, v.frames, v.global, v.loopcount, ratio)
        == CopiesFor(s.frames, w.frames, w.global, w.loopcount, ratio);
  }

  /** A source merges as the pick it matches stands for. */
  lemma MatchedMerge(t: seq<Entry>, s: Slideshow, v: SourceVal, p: Pick, ratio: real)
    requires Matches(t, v, p)
    ensures Merged(s, v, ratio) == Merged(s, PickSource(t, p), ratio)
  {
    if p.FromTable? {
      MergedBySource(s, v, PickSource(t, p), ratio);
    }
  }

  /** Sources matching the picks compose to the slideshow the picks stand
      for: what parse_slideshow builds depends only on the table's records
      and the files. */
  lemma {:induction false} PlayByPicks(t: seq<Entry>, s: Slideshow, srcs: seq<SourceVal>, ps: seq<Pick>, ratio: real)
    requires AllMatch(t, srcs, ps)
    ensures PicksResolve(t, ps) && Play(s, srcs, ratio) == Play(s, PickSources(t, ps), ratio)
    decreases |srcs|
  {
    assert PicksResolve(t, ps) by {
      forall k | 0 <= k < |ps| && ps[k].FromTable?
        ensures 0 <= ps[k].entry < |t| && SynonymsResolve(t)
      {
        assert Matches(t, srcs[k], ps[k]);
      }
    }
    if srcs != [] {
      var n := |srcs| - 1;
      var front, fps := srcs[..n], ps[..n];
      assert AllMatch(t, front, fps) by {
        forall k | 0 <= k < n ensures Matches(t, front[k], fps[k]) {
          assert front[k] == srcs[k] && fps[k] == ps[k];
        }
      }
      PlayByPicks(t, s, front, fps, ratio);
      var qs := PickSources(t, ps);
      assert qs[..n] == PickSources(t, fps);
      var p := Play(s, front, ratio);
      MatchedMerge(t, p, srcs[n], ps[n], ratio);
      assert Play(s, srcs, ratio) == Merged(p, srcs[n], ratio);
      assert Play(s, qs, ratio) == Merged(Play(s, qs[..n], ratio), qs[n], ratio);
    }
  }

  /** Every entry of a repetition is an entry of what is repeated. */
  lemma {:induction false} RepeatFrom<T>(s: seq<T>, c: nat)
    ensures forall k :: 0 <= k < |Repeat(s, c)| ==> Repeat(s, c)[k] in s
    decreases c
  {
    if c > 0 {
      RepeatFrom(s, c - 1);
      var r := Repeat(s, c - 1);
      assert Repeat(s, c) == r + s;
      forall k | 0 <= k < |r + s| ensures (r + s)[k] in s {
        if k < |r| { assert (r + s)[k] == r[k]; } else { assert (r + s)[k] == s[k - |r|]; }
      }
    }
  }

  /** Unowned frames are preserved by concatenation and repetition. */
  lemma UnownedAppend(a: seq<Image>, b: seq<Image>, c: nat)
    requires Unowned(a) && Unowned(b)
    ensures Unowned(a + b + Repeat(b, c))
  {
    var r := Repeat(b, c);
    RepeatFrom(b, c);
    forall k | 0 <= k < |a + b + r| ensures (a + b + r)[k].userData == NoOwner {
      if k < |a| {
        assert (a + b + r)[k] == a[k];
      } else if k < |a| + |b| {
        assert (a + b + r)[k] == b[k - |a|];
      } else {
        assert (a + b + r)[k] == r[k - |a| - |b|];
      }
    }
  }

  // ---------------------------------------------------------------------
  // One token

  /** add_stream_to_slideshow on a source that is not the slideshow and
      shares no frame with it; the slideshow's frames stay unowned. */
  method MergeInto(add: Stream, gfs: Stream, ratio: real) returns (ghost v: SourceVal)
    requires add != gfs && Distinct(add.images)
    requires forall k :: 0 <= k < |add.images| ==> add.images[k] !in gfs.images
    requires Unowned(gfs.images)
    modifies gfs`images, gfs`global, gfs`background, gfs`loopcount, gfs`screenWidth, gfs`screenHeight
    modifies (set img | img in add.images)`content
    modifies (set img | img in add.images)`refcount
    ensures v == old(SourceOf(add))
    ensures StateOf(gfs) == Merged(old(StateOf(gfs)), v, ratio)
    ensures Unowned(gfs.images)
    ensures forall img :: img in gfs.images ==> img in old(gfs.images) || fresh(img) || img in add.images
    ensures forall k :: 0 <= k < |add.images| && old(add.images[k].userData) != NoOwner ==>
      && Frame(add.images[k]) == SourceFrame(old(Frame(add.images[k])), |add.images|)
      && add.images[k].refcount == old(add.images[k].refcount) + 1
  {
    v := SourceOf(add);
    var added, copies := AddStreamToSlideshow(add, gfs, ratio);
    UnownedAppend(old(gfs.images), added, copies);
    RepeatFrom(added, copies);
  }

  /** What a file contributes: its GIF, if it is one. */
  function FileSources(files: map<string, FileResult>, path: string): seq<SourceVal> {
    if path in files && files[path].Read? && IsGif(files[path].v) then [files[path].v] else []
  }

  /** The file part of parse_slideshow: open and decode the file, report it
      if it cannot be opened or is no GIF, merge it otherwise. */
  method LoadFile(path: string, files: map<string, FileResult>, gfs: Stream, ratio: real)
    returns (msgs: seq<Message>, ghost src: seq<SourceVal>)
    requires Unowned(gfs.images)
    modifies gfs`images, gfs`global, gfs`background, gfs`loopcount, gfs`screenWidth, gfs`screenHeight
    ensures msgs == FileMessages(files, path)
    ensures src == FileSources(files, path)
    ensures StateOf(gfs) == Play(old(StateOf(gfs)), src, ratio)
    ensures Unowned(gfs.images) && forall img :: img in gfs.images ==> img in old(gfs.images) || fresh(img)
  {
    src := [];
    if path !in files {
      return [CannotOpen(path)], src;
    }
    match files[path]
    case Unreadable =>
      msgs := [NotGif(path)];
    case Read(w) =>
      var add := Decode(w);
      if |add.images| == 0 && add.errors > 0 {
        msgs := [NotGif(path)];
      } else {
        FramesOfIs(add.images, w.frames);
        var v := MergeInto(add, gfs, ratio);
        src, msgs := [v], [];
      }
  }

  /** The built-in lookup of parse_slideshow: the token's name, then for a
      name ending in "mono" the name without it, with a warning if that
      one is found. */
  method LookUp(token: string, mono: bool, catalog: PictureTable) returns (add: Stream?, msgs: seq<Message>)
    requires MarksBuiltIn(token) && catalog.Valid() && catalog.Intact()
    modifies catalog`cache, catalog`Streams, catalog`Frames
    ensures catalog.Valid() && catalog.Intact() && catalog.Grown()
    ensures var c := Choose(catalog.table, token, mono);
      && (c.UseBuiltIn? <==> add != null)
      && (add != null ==> c.entry in catalog.cache && catalog.cache[c.entry] == add)
      && msgs == Warning(c)
  {
    var name := BuiltInName(token, mono);
    add := catalog.GetBuiltInImage(name);
    msgs := [];
    if add == null && |name| > 4 && name[|name| - 4..] == "mono" {
      var colour := name[..|name| - 4];
      add := catalog.GetBuiltInImage(colour);
      if add != null {
        msgs := [NoMonoVersion(colour)];
      }
    }
  }

  /** Built frames are unowned, catalog frames are built in: the two never
      share a frame. */
  lemma Apart(catalog: PictureTable, add: Stream, gfs: Stream, i: int)
    requires catalog.Valid() && i in catalog.cache && catalog.cache[i] == add
    requires Unowned(gfs.images)
    ensures catalog.EntryOk(i, add)
    ensures forall k :: 0 <= k < |add.images| ==> add.images[k] !in gfs.images
  {
    assert catalog.EntryOk(i, add);
    forall k | 0 <= k < |add.images| ensures add.images[k] !in gfs.images {
      assert add.images[k].userData == BuiltIn(add);
    }
  }

  /** A built-in token whose picture is found: the picture merged. */
  method MergeBuiltIn(add: Stream, ghost i: int, gfs: Stream, ratio: real, catalog: PictureTable)
    returns (ghost src: seq<SourceVal>)
    requires catalog.Valid() && catalog.Intact() && gfs !in catalog.Streams && Unowned(gfs.images)
    requires i in catalog.cache && catalog.cache[i] == add
    modifies gfs`images, gfs`global, gfs`background, gfs`loopcount, gfs`screenWidth, gfs`screenHeight
    modifies (set img | img in add.images)`content
    modifies (set img | img in add.images)`refcount
    ensures catalog.Valid() && catalog.Intact() && Unowned(gfs.images)
    ensures forall img :: img in gfs.images ==> img in old(gfs.images) || fresh(img)
    ensures forall k :: 0 <= k < |add.images| ==> add.images[k].refcount == old(add.images[k].refcount) + 1
    ensures AllMatch(catalog.table, src, [FromTable(i)])
    ensures StateOf(gfs) == Play(old(StateOf(gfs)), src, ratio)
  {
    Apart(catalog, add, gfs, i);
    HoldsSource(add, catalog.table[Resolved(catalog.table, i)].record);
    var v := MergeInto(add, gfs, ratio);
    src := [v];
    PlayOne(old(StateOf(gfs)), v, ratio);
    catalog.MergedIntact(i);
  }

  /** A built-in token whose picture is not found: nothing for `*`, the
      file of the name for `&`. */
  method NotFound(token: string, files: map<string, FileResult>, gfs: Stream, ratio: real,
                  catalog: PictureTable)
    returns (msgs: seq<Message>, ghost src: seq<SourceVal>)
    requires MarksBuiltIn(token)
    requires catalog.Valid() && catalog.Intact() && gfs !in catalog.Streams && Unowned(gfs.images)
    modifies gfs`images, gfs`global, gfs`background, gfs`loopcount, gfs`screenWidth, gfs`screenHeight
    ensures catalog.Valid() && catalog.Intact() && Unowned(gfs.images)
    ensures forall img :: img in gfs.images ==> img in old(gfs.images) || fresh(img)
    ensures token[0] == '*' ==> msgs == [] && src == []
    ensures token[0] != '*' ==> msgs == FileMessages(files, token[1..]) && src == FileSources(files, token[1..])
    ensures StateOf(gfs) == Play(old(StateOf(gfs)), src, ratio)
  {
    if token[0] == '*' {
      return [], [];
    }
    msgs, src := LoadFile(token[1..], files, gfs, ratio);
    catalog.StillIntact();
  }

  /** The messages and picks of a built-in token, by whether a built-in
      picture is chosen and, if not, by its mark. */
  lemma BuiltInOutcome(t: seq<Entry>, files: map<string, FileResult>, token: string, mono: bool)
    requires MarksBuiltIn(token)
    ensures var c := Choose(t, token, mono);
      c.UseBuiltIn? ==> MessagesOf(t, files, token, mono) == Warning(c) && PickOf(t, files, token, mono) == [FromTable(c.entry)]
    ensures !Choose(t, token, mono).UseBuiltIn? && token[0] == '*' ==>
      MessagesOf(t, files, token, mono) == [] && PickOf(t, files, token, mono) == []
    ensures !Choose(t, token, mono).UseBuiltIn? && token[0] != '*' ==>
      && MessagesOf(t, files, token, mono) == FileMessages(files, token[1..])
      && AllMatch(t, FileSources(files, token[1..]), PickOf(t, files, token, mono))
  {
  }

  /** A built-in token: the picture merged if it is found; otherwise
      nothing for `*` and the file of the name for `&`. */
  method BuiltInToken(token: string, mono: bool, files: map<string, FileResult>, gfs: Stream, ratio: real,
                      catalog: PictureTable)
    returns (msgs: seq<Message>, ghost src: seq<SourceVal>)
    requires MarksBuiltIn(token)
    requires catalog.Valid() && catalog.Intact() && gfs !in catalog.Streams && Unowned(gfs.images)
    modifies gfs`images, gfs`global, gfs`background, gfs`loopcount, gfs`screenWidth, gfs`screenHeight
    modifies catalog`cache, catalog`Streams, catalog`Frames
    modifies (set img | img in catalog.Frames)`content
    modifies (set img | img in catalog.Frames)`refcount
    ensures catalog.Valid() && catalog.Intact() && catalog.Grown() && gfs !in catalog.Streams && Unowned(gfs.images)
    ensures forall img :: img in gfs.images ==> img in old(gfs.images) || fresh(img)
    ensures msgs == MessagesOf(catalog.table, files, token, mono)
    ensures AllMatch(catalog.table, src, PickOf(catalog.table, files, token, mono))
    ensures StateOf(gfs) == Play(old(StateOf(gfs)), src, ratio)
  {
    ghost var c := Choose(catalog.table, token, mono);
    var add;
    add, msgs := LookUp(token, mono, catalog);
    assert gfs.images == old(gfs.images) && StateOf(gfs) == old(StateOf(gfs));
    if add != null {
      assert forall k :: 0 <= k < |add.images| ==> add.images[k] in catalog.Frames;
      src := MergeBuiltIn(add, c.entry, gfs, ratio, catalog);
    } else {
      msgs, src := NotFound(token, files, gfs, ratio, catalog);
    }
    BuiltInOutcome(catalog.table, files, token, mono);
  }

  /** One token of parse_slideshow: its clock offset, its source merged
      into gfs, and its messages. */
  method ParseToken(token: string, mono: bool, files: map<string, FileResult>, gfs: Stream, ratio: real,
                    catalog: PictureTable)
    returns (msgs: seq<Message>, clock: int, ghost src: seq<SourceVal>)
    requires catalog.Valid() && catalog.Intact() && gfs !in catalog.Streams && Unowned(gfs.images)
    modifies gfs`images, gfs`global, gfs`background, gfs`loopcount, gfs`screenWidth, gfs`screenHeight
    modifies catalog`cache, catalog`Streams, catalog`Frames
    modifies (set img | img in catalog.Frames)`content
    modifies (set img | img in catalog.Frames)`refcount
    ensures catalog.Valid() && catalog.Intact() && catalog.Grown() && gfs !in catalog.Streams && Unowned(gfs.images)
    ensures forall img :: img in gfs.images ==> img in old(gfs.images) || fresh(img)
    ensures msgs == MessagesOf(catalog.table, files, token, mono)
    ensures clock == TokenClock(token, mono)
    ensures AllMatch(catalog.table, src, PickOf(catalog.table, files, token, mono))
    ensures StateOf(gfs) == Play(old(StateOf(gfs)), src, ratio)
  {
    if !MarksBuiltIn(token) {
      clock := -1;
      msgs, src := LoadFile(token, files, gfs, ratio);
      catalog.StillIntact();
      return;
    }
    var name := BuiltInName(token, mono);
    clock := if |name| >= 6 && name[..6] == "locked" then LOCKED_CLOCK_X_OFF else DEFAULT_CLOCK_X_OFF;
    msgs, src := BuiltInToken(token, mono, files, gfs, ratio, catalog);
  }

  // ---------------------------------------------------------------------
  // The token loop

  /** Merging sources one after the other. */
  lemma PlayAppend(s: Slideshow, a: seq<SourceVal>, b: seq<SourceVal>, ratio: real)
    requires |b| <= 1
    ensures Play(s, a + b, ratio) == Play(Play(s, a, ratio), b, ratio)
  {
    if |b| == 1 {
      assert (a + b)[..|a|] == a;
    } else {
      assert a + b == a;
    }
  }

  /** Matching sources and picks can be extended together. */
  lemma AllMatchAppend(t: seq<Entry>, s0: seq<SourceVal>, p0: seq<Pick>, s1: seq<SourceVal>, p1: seq<Pick>)
    requires AllMatch(t, s0, p0) && AllMatch(t, s1, p1)
    ensures AllMatch(t, s0 + s1, p0 + p1)
  {
    forall k | 0 <= k < |s0 + s1| ensures Matches(t, (s0 + s1)[k], (p0 + p1)[k]) {
      if k < |s0| {
        assert (s0 + s1)[k] == s0[k] && (p0 + p1)[k] == p0[k];
      } else {
        assert (s0 + s1)[k] == s1[k - |s0|] && (p0 + p1)[k] == p1[k - |p0|];
      }
    }
  }

  /** The folds over the tokens, one token further. */
  lemma FoldsStep(t: seq<Entry>, files: map<string, FileResult>, ts: seq<string>, k: nat, mono: bool)
    requires k < |ts|
    ensures Messages(t, files, ts[..k + 1], mono) == Messages(t, files, ts[..k], mono) + MessagesOf(t, files, ts[k], mono)
    ensures Picks(t, files, ts[..k + 1], mono) == Picks(t, files, ts[..k], mono) + PickOf(t, files, ts[k], mono)
    ensures var c := ClockOf(ts[..k], mono);
      ClockOf(ts[..k + 1], mono) == if c >= 0 then c else TokenClock(ts[k], mono)
  {
    assert ts[..k + 1][..k] == ts[..k];
  }

  /** One turn of the token loop: the loop invariant at token k, and
      after it. */
  method MergeStep(ts: seq<string>, k: nat, mono: bool, files: map<string, FileResult>, ratio: real,
                   catalog: PictureTable, gfs: Stream, msgs: seq<Message>, clock: int, ghost srcs: seq<SourceVal>)
    returns (msgs': seq<Message>, clock': int, ghost srcs': seq<SourceVal>)
    requires k < |ts|
    requires catalog.Valid() && catalog.Intact() && gfs !in catalog.Streams && Unowned(gfs.images)
    requires msgs == Messages(catalog.table, files, ts[..k], mono)
    requires clock == ClockOf(ts[..k], mono)
    requires AllMatch(catalog.table, srcs, Picks(catalog.table, files, ts[..k], mono))
    requires StateOf(gfs) == Composed(srcs, ratio)
    modifies gfs`images, gfs`global, gfs`background, gfs`loopcount, gfs`screenWidth, gfs`screenHeight
    modifies catalog`cache, catalog`Streams, catalog`Frames
    modifies (set img | img in catalog.Frames)`content
    modifies (set img | img in catalog.Frames)`refcount
    ensures catalog.Valid() && catalog.Intact() && catalog.Grown() && gfs !in catalog.Streams && Unowned(gfs.images)
    ensures forall img :: img in gfs.images ==> img in old(gfs.images) || fresh(img)
    ensures msgs' == Messages(catalog.table, files, ts[..k + 1], mono)
    ensures clock' == ClockOf(ts[..k + 1], mono)
    ensures AllMatch(catalog.table, srcs', Picks(catalog.table, files, ts[..k + 1], mono))
    ensures StateOf(gfs) == Composed(srcs', ratio)
  {
    var m, c, src := ParseToken(ts[k], mono, files, gfs, ratio, catalog);
    FoldsStep(catalog.table, files, ts, k, mono);
    AllMatchAppend(catalog.table, srcs, Picks(catalog.table, files, ts[..k], mono),
                   src, PickOf(catalog.table, files, ts[k], mono));
    PlayAppend(START, srcs, src, ratio);
    msgs', srcs' := msgs + m, srcs + src;
    clock' := if clock < 0 then c else clock;
  }

  /** The stream parse_slideshow merges into: new, looping forever. */
  method NewSlideshow() returns (gfs: Stream)
    ensures fresh(gfs) && StateOf(gfs) == START && gfs.images == []
  {
    gfs := new Stream.Empty();
    gfs.loopcount := 0;
    assert FramesOf(gfs.images) == [];
  }

  /** The token loop of parse_slideshow: a new stream, looping forever,
      into which every token's source is merged. */
  method MergeTokens(ts: seq<string>, mono: bool, files: map<string, FileResult>, ratio: real,
                     catalog: PictureTable)
    returns (gfs: Stream, msgs: seq<Message>, clock: int, ghost srcs: seq<SourceVal>)
    requires catalog.Valid() && catalog.Intact()
    modifies catalog`cache, catalog`Streams, catalog`Frames
    modifies (set img | img in catalog.Frames)`content
    modifies (set img | img in catalog.Frames)`refcount
    ensures catalog.Valid() && catalog.Intact()
    ensures fresh(gfs) && gfs !in catalog.Streams && Unowned(gfs.images)
    ensures forall img :: img in gfs.images ==> fresh(img)
    ensures msgs == Messages(catalog.table, files, ts, mono)
    ensures clock == ClockOf(ts, mono)
    ensures AllMatch(catalog.table, srcs, Picks(catalog.table, files, ts, mono))
    ensures StateOf(gfs) == Composed(srcs, ratio)
  {
    gfs := NewSlideshow();
    catalog.StillIntact();
    msgs, clock, srcs := [], -1, [];
    var k := 0;
    while k < |ts|
      invariant 0 <= k <= |ts|
      invariant catalog.Valid() && catalog.Intact() && fresh(gfs) && gfs !in catalog.Streams && Unowned(gfs.images)
      invariant forall img :: img in gfs.images ==> fresh(img)
      invariant old(catalog.Frames) <= catalog.Frames && fresh(catalog.Frames - old(catalog.Frames))
      invariant msgs == Messages(catalog.table, files, ts[..k], mono)
      invariant clock == ClockOf(ts[..k], mono)
      invariant AllMatch(catalog.table, srcs, Picks(catalog.table, files, ts[..k], mono))
      invariant StateOf(gfs) == Composed(srcs, ratio)
    {
      msgs, clock, srcs := MergeStep(ts, k, mono, files, ratio, catalog, gfs, msgs, clock, srcs);
      k := k + 1;
    }
    assert ts[..k] == ts;
  }

  // ---------------------------------------------------------------------
  // Finishing the stream

  /** The widest frame's width, 0 without frames. */
  function MaxWidth(fs: seq<FrameVal>): (w: int)
    ensures w >= 0 && forall k :: 0 <= k < |fs| ==> fs[k].width <= w
    decreases |fs|
  {
    if fs == [] then 0 else Max(MaxWidth(fs[..|fs| - 1]), fs[|fs| - 1].width)
  }

  /** The tallest frame's height, 0 without frames. */
  function MaxHeight(fs: seq<FrameVal>): (h: int)
    ensures h >= 0 && forall k :: 0 <= k < |fs| ==> fs[k].height <= h
    decreases |fs|
  {
    if fs == [] then 0 else Max(MaxHeight(fs[..|fs| - 1]), fs[|fs| - 1].height)
  }

  /** The maxima are frame sizes (or 0). */
  lemma {:induction false} MaxAttained(fs: seq<FrameVal>)
    ensures MaxWidth(fs) == 0 || exists k :: 0 <= k < |fs| && fs[k].width == MaxWidth(fs)
    ensures MaxHeight(fs) == 0 || exists k :: 0 <= k < |fs| && fs[k].height == MaxHeight(fs)
    decreases |fs|
  {
    if fs != [] {
      var front := fs[..|fs| - 1];
      MaxAttained(front);
      if MaxWidth(fs) != 0 && MaxWidth(fs) == MaxWidth(front) && MaxWidth(fs) != fs[|fs| - 1].width {
        var k :| 0 <= k < |front| && front[k].width == MaxWidth(front);
        assert fs[k] == front[k];
      }
      if MaxHeight(fs) != 0 && MaxHeight(fs) == MaxHeight(front) && MaxHeight(fs) != fs[|fs| - 1].height {
        var k :| 0 <= k < |front| && front[k].height == MaxHeight(front);
        assert fs[k] == front[k];
      }
    }
  }

  /** The screen the finished slideshow gets: the bounding box of its
      frames when a screen dimension is 0 or there is exactly one frame,
      its merged screen otherwise. */
  function FinalScreen(s: Slideshow): (int, int) {
    var h := s.header;
    if h.screenWidth == 0 || h.screenHeight == 0 || |s.frames| == 1 then (MaxWidth(s.frames), MaxHeight(s.frames))
    else (h.screenWidth, h.screenHeight)
  }

  /** A finished slideshow with frames of non-zero size has a non-zero
      screen that holds every frame. */
  lemma FinalScreenHolds(srcs: seq<SourceVal>, ratio: real)
    requires var fs := Composed(srcs, ratio).frames;
      |fs| > 0 && (forall k :: 0 <= k < |fs| ==> fs[k].width > 0 && fs[k].height > 0)
    ensures var s := Composed(srcs, ratio);
      var (w, h) := FinalScreen(s);
      && w > 0 && h > 0
      && (s.header.screenWidth == 0 || s.header.screenHeight == 0 || |s.frames| == 1 ==>
            forall k :: 0 <= k < |s.frames| ==> s.frames[k].width <= w && s.frames[k].height <= h)
  {
    var s := Composed(srcs, ratio);
    ComposedScreen(srcs, ratio);
    assert s.frames[0].width <= MaxWidth(s.frames) && s.frames[0].height <= MaxHeight(s.frames);
  }

  /** The screen fix of parse_slideshow: if a screen dimension is 0 or
      there is exactly one frame, the screen becomes the bounding box of
      the frames. */
  method FixScreen(gfs: Stream)
    modifies gfs`screenWidth, gfs`screenHeight
    ensures (gfs.screenWidth, gfs.screenHeight) == old(FinalScreen(StateOf(gfs)))
  {
    ghost var fs := FramesOf(gfs.images);
    if gfs.screenWidth == 0 || gfs.screenHeight == 0 || |gfs.images| == 1 {
      gfs.screenWidth, gfs.screenHeight := 0, 0;
      var i := 0;
      while i < |gfs.images|
        invariant 0 <= i <= |gfs.images| && FramesOf(gfs.images) == fs
        invariant gfs.screenWidth == MaxWidth(fs[..i]) && gfs.screenHeight == MaxHeight(fs[..i])
      {
        assert fs[..i + 1][..i] == fs[..i];
        var gfi := gfs.images[i];
        if gfi.content.width > gfs.screenWidth {
          gfs.screenWidth := gfi.content.width;
        }
        if gfi.content.height > gfs.screenHeight {
          gfs.screenHeight := gfi.content.height;
        }
        i := i + 1;
      }
      assert fs[..i] == fs;
    }
  }

  /** How many ports' render tables Gif_NewXFrames makes before its first
      failure (`made[p]` says whether it succeeds for port p). */
  function Made(made: seq<bool>): (n: nat)
    ensures n <= |made| && (forall p :: 0 <= p < n ==> made[p]) && (n < |made| ==> !made[n])
  {
    if made == [] || !made[0] then 0 else 1 + Made(made[1..])
  }

  /** A port's new render table: no frame rendered yet. */
  function Unrendered(n: nat): (r: seq<int>)
    ensures |r| == n && forall j :: 0 <= j < n ==> r[j] == 0
  {
    seq(n, _ => 0)
  }

  /** add_picturelist: -1 when the cache cannot be allocated. Otherwise a
      new cache with the clock offsets and one render table per port; if a
      table cannot be made it returns 0 at once, leaving the frames
      without cache; else every frame gets the cache as its `user_data`
      and the cache's reference count is the number of frames. */
  method AddPicturelist(gfs: Stream, clockXOff: int, clockYOff: int, made: seq<bool>, allocOk: bool)
    returns (r: int, pl: PictureList?)
    modifies (set img | img in gfs.images)`userData
    ensures r == if allocOk then 0 else -1
    ensures allocOk <==> pl != null
    ensures pl != null ==>
      && fresh(pl) && pl.gfs == gfs && pl.clockXOff == clockXOff && pl.clockYOff == clockYOff && !pl.freed
      && |pl.frames| == Made(made) && (forall p :: 0 <= p < |pl.frames| ==> pl.frames[p] == Unrendered(|gfs.images|))
    ensures pl != null && Made(made) == |made| ==>
      pl.refcount == |gfs.images| && forall k :: 0 <= k < |gfs.images| ==> gfs.images[k].userData == Listed(pl)
    ensures pl == null || Made(made) < |made| ==>
      (pl != null ==> pl.refcount == 0) && forall k :: 0 <= k < |gfs.images| ==> gfs.images[k].userData == old(gfs.images[k].userData)
  {
    if !allocOk {
      return -1, null;
    }
    pl := new PictureList(gfs, clockXOff, clockYOff);
    var p := 0;
    while p < |made|
      invariant 0 <= p <= Made(made) && fresh(pl) && pl.refcount == 0 && !pl.freed
      invariant pl.gfs == gfs && pl.clockXOff == clockXOff && pl.clockYOff == clockYOff
      invariant |pl.frames| == p && forall q :: 0 <= q < p ==> pl.frames[q] == Unrendered(|gfs.images|)
      invariant forall j :: 0 <= j < |gfs.images| ==> gfs.images[j].userData == old(gfs.images[j].userData)
    {
      if !made[p] {
        return 0, pl;
      }
      pl.frames := pl.frames + [Unrendered(|gfs.images|)];
      p := p + 1;
    }
    var k := 0;
    while k < |gfs.images|
      invariant 0 <= k <= |gfs.images| && pl.refcount == k && fresh(pl) && !pl.freed
      invariant pl.gfs == gfs && pl.clockXOff == clockXOff && pl.clockYOff == clockYOff
      invariant |pl.frames| == Made(made) && forall q :: 0 <= q < |pl.frames| ==> pl.frames[q] == Unrendered(|gfs.images|)
      invariant forall j :: 0 <= j < k ==> gfs.images[j].userData == Listed(pl)
    {
      gfs.images[k].userData := Listed(pl);
      pl.refcount := pl.refcount + 1;
      k := k + 1;
    }
    r := 0;
  }

  /** free_picturelist, called once for every frame's reference: the
      reference count drops by one; the cache's render tables are released
      exactly when it reaches 0. */
  method FreePicturelist(pl: PictureList)
    modifies pl`refcount, pl`frames, pl`freed
    ensures pl.refcount == old(pl.refcount) - 1
    ensures pl.freed <==> old(pl.freed) || pl.refcount == 0
    ensures pl.frames == if pl.refcount == 0 then [] else old(pl.frames)
  {
    pl.refcount := pl.refcount - 1;
    if pl.refcount == 0 {
      pl.frames := [];
      pl.freed := true;
    }
  }

  // ---------------------------------------------------------------------
  // parse_slideshow

  /** parse_slideshow. A text of BUFSIZ characters or more gives null.
      Otherwise the tokens' sources are merged into a new stream that
      loops forever, every warning and error is reported, the screen
      size is fixed, and a stream with frames gets its render cache, with
      the clock offset of the first built-in token; a failed cache
      allocation gives null. `files` is what the files hold, `made` and
      `allocOk` say whether the cache's allocations succeed. */
  method ParseSlideshow(text: string, ratio: real, mono: bool, catalog: PictureTable,
                        files: map<string, FileResult>, made: seq<bool>, allocOk: bool)
    returns (gfs: Stream?, msgs: seq<Message>, ghost srcs: seq<SourceVal>, ghost pl: PictureList?)
    requires catalog.Valid() && catalog.Intact()
    modifies catalog`cache, catalog`Streams, catalog`Frames
    modifies (set img | img in catalog.Frames)`content
    modifies (set img | img in catalog.Frames)`refcount
    ensures catalog.Valid() && catalog.Intact()
    ensures |text| >= BUFSIZ ==> gfs == null && msgs == [] && catalog.cache == old(catalog.cache)
    ensures |text| < BUFSIZ ==>
      var ts := Tokens.Tokens(text);
      && msgs == Messages(catalog.table, files, ts, mono)
      && AllMatch(catalog.table, srcs, Picks(catalog.table, files, ts, mono))
      && PicksResolve(catalog.table, Picks(catalog.table, files, ts, mono))
      && Composed(srcs, ratio) == Composed(PickSources(catalog.table, Picks(catalog.table, files, ts, mono)), ratio)
      && (gfs == null <==> |Composed(srcs, ratio).frames| > 0 && !allocOk)
    ensures gfs != null ==>
      var s := Composed(srcs, ratio);
      && fresh(gfs) && FramesOf(gfs.images) == s.frames
      && gfs.loopcount == s.header.loopcount && gfs.global == s.header.global && gfs.background == s.header.background
      && (gfs.screenWidth, gfs.screenHeight) == FinalScreen(s)
    ensures gfs != null && |gfs.images| == 0 ==> pl == null
    ensures gfs != null && |gfs.images| > 0 && Made(made) == |made| ==>
      && pl != null && fresh(pl) && pl.gfs == gfs
      && pl.clockXOff == ClockXOff(ClockOf(Tokens.Tokens(text), mono)) && pl.clockYOff == CLOCK_Y_OFF
      && pl.refcount == |gfs.images| && forall k :: 0 <= k < |gfs.images| ==> gfs.images[k].userData == Listed(pl)
    ensures gfs != null && |gfs.images| > 0 && Made(made) < |made| ==>
      pl != null && fresh(pl) && pl.refcount == 0 && Unowned(gfs.images)
  {
    if |text| >= BUFSIZ {
      return null, [], [], null;
    }
    var ts := Tokenize(text);
    var g, clock;
    g, msgs, clock, srcs := MergeTokens(ts, mono, files, ratio, catalog);
    label merged:
    assert forall img :: img in catalog.Frames ==> img !in g.images;
    gfs, pl := Finish(g, ClockXOff(clock), made, allocOk, srcs, ratio);
    catalog.StillIntact@merged();
    PlayByPicks(catalog.table, START, srcs, Picks(catalog.table, files, Tokens.Tokens(text), mono), ratio);
  }

  /** The end of parse_slideshow: the screen fix and, for a stream with
      frames, the render cache. */
  method Finish(gfs: Stream, clockXOff: int, made: seq<bool>, allocOk: bool, ghost srcs: seq<SourceVal>, ratio: real)
    returns (r: Stream?, ghost pl: PictureList?)
    requires Unowned(gfs.images) && StateOf(gfs) == Composed(srcs, ratio)
    modifies gfs`screenWidth, gfs`screenHeight, (set img | img in gfs.images)`userData
    ensures r == null || r == gfs
    ensures r == null <==> |gfs.images| > 0 && !allocOk
    ensures FramesOf(gfs.images) == Composed(srcs, ratio).frames
    ensures var h := Composed(srcs, ratio).header;
      gfs.loopcount == h.loopcount && gfs.global == h.global && gfs.background == h.background
    ensures (gfs.screenWidth, gfs.screenHeight) == FinalScreen(Composed(srcs, ratio))
    ensures |gfs.images| == 0 ==> pl == null
    ensures r != null && |gfs.images| > 0 && Made(made) == |made| ==>
      && pl != null && fresh(pl) && pl.gfs == gfs && pl.clockXOff == clockXOff && pl.clockYOff == CLOCK_Y_OFF
      && pl.refcount == |gfs.images| && forall k :: 0 <= k < |gfs.images| ==> gfs.images[k].userData == Listed(pl)
    ensures r != null && |gfs.images| > 0 && Made(made) < |made| ==>
      pl != null && fresh(pl) && pl.refcount == 0 && Unowned(gfs.images)
  {
    FixScreen(gfs);
    r, pl := gfs, null;
    if |gfs.images| > 0 {
      var res, list := AddPicturelist(gfs, clockXOff, CLOCK_Y_OFF, made, allocOk);
      pl := list;
      if res < 0 {
        r := null;
      }
    }
  }
}
