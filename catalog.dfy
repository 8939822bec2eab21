/** The built-in pictures of pictures.c: a table of named GIF records,
    each decoded on first use and then kept, and four names that stand for
    the pictures of other names. */
module Catalog {

  import opened Wrappers
  import opened Gif
  import Compose

  /** One entry of the table: a picture with the GIF record compiled into
      the program (given here by the content it decodes to), or a name
      standing for another entry's picture. */
  datatype Entry =
    | Picture(name: string, record: SourceVal)
    | Synonym(name: string, target: string)

  /** The names of the compiled-in pictures, in table order: the colour
      pictures, their monochrome versions, and two other gestures. */
  const PICTURE_NAMES: seq<string> := [
    "clench", "clenchicon", "spread", "spreadicon", "american", "americanicon",
    "resting", "restingicon", "ready", "readyicon", "locked", "bars",
    "clenchmono", "clenchiconmono", "spreadmono", "spreadiconmono",
    "americanmono", "americaniconmono", "restingmono", "restingiconmono",
    "readymono", "readyiconmono", "lockedmono", "barsmono",
    "korean", "koreanicon", "german", "germanicon"]

  /** The synonyms that close the table, as (name, target) pairs. */
  const SYNONYMS: seq<(string, string)> := [
    ("japanese", "korean"), ("japaneseicon", "koreanicon"),
    ("russian", "korean"), ("russianicon", "koreanicon")]

  /** `t` is the table of pictures.c, whatever its records decode to. */
  predicate BuiltInTable(t: seq<Entry>) {
    && |t| == |PICTURE_NAMES| + |SYNONYMS|
    && (forall i :: 0 <= i < |PICTURE_NAMES| ==> t[i].Picture? && t[i].name == PICTURE_NAMES[i])
    && (forall i :: 0 <= i < |SYNONYMS| ==>
         t[|PICTURE_NAMES| + i] == Synonym(SYNONYMS[i].0, SYNONYMS[i].1))
  }

  /** In the table of pictures.c the names the synonyms stand for are
      found at indexes 24 ("korean") and 25 ("koreanicon"). */
  lemma BuiltInTargets(t: seq<Entry>)
    requires BuiltInTable(t)
    ensures IndexOf(t, "korean") == 24 && IndexOf(t, "koreanicon") == 25
  {
    forall j | 0 <= j < 24
      ensures t[j].name != "korean" && t[j].name != "koreanicon"
    {
      assert t[j].name == PICTURE_NAMES[j];
    }
    IndexFromFirst(t, "korean", 0, 24);
    IndexFromFirst(t, "koreanicon", 0, 25);
  }

  /** The table of pictures.c is well formed: each of its synonyms stands
      for a picture entry. */
  lemma BuiltInTableResolves(t: seq<Entry>)
    requires BuiltInTable(t)
    ensures SynonymsResolve(t)
  {
    BuiltInTargets(t);
    forall i | 0 <= i < |t| && t[i].Synonym?
      ensures 0 <= IndexOf(t, t[i].target) < |t| && t[IndexOf(t, t[i].target)].Picture?
    {
      assert t[i].target == SYNONYMS[i - |PICTURE_NAMES|].1;
    }
  }

  /** The index at or after `from` of the first entry named `name`, or -1. */
  function IndexFrom(t: seq<Entry>, name: string, from: nat): (r: int)
    requires from <= |t|
    ensures r == -1 || from <= r < |t|
    ensures r >= 0 ==> t[r].name == name && forall j :: from <= j < r ==> t[j].name != name
    ensures r == -1 <==> forall j :: from <= j < |t| ==> t[j].name != name
    decreases |t| - from
  {
    if from == |t| then -1
    else if t[from].name == name then from
    else IndexFrom(t, name, from + 1)
  }

  /** The entry the table lookup of get_built_in_image stops at, or -1. */
  function IndexOf(t: seq<Entry>, name: string): int {
    IndexFrom(t, name, 0)
  }

  /** An entry named `name` with no earlier entry of that name is the one
      the lookup finds. */
  lemma {:induction false} IndexFromFirst(t: seq<Entry>, name: string, from: nat, r: nat)
    requires from <= r < |t| && t[r].name == name
    requires forall j :: from <= j < r ==> t[j].name != name
    ensures IndexFrom(t, name, from) == r
    decreases r - from
  {
    if from < r {
      IndexFromFirst(t, name, from + 1, r);
    }
  }

  /** Every synonym names a picture entry (no chains, no dangling names). */
  predicate SynonymsResolve(t: seq<Entry>) {
    forall i :: 0 <= i < |t| && t[i].Synonym? ==>
      var j := IndexOf(t, t[i].target);
      0 <= j < |t| && t[j].Picture?
  }

  /** The entry of a name and, for a synonym, the picture entry it stands
      for: the entry whose content the lookup returns. */
  function Resolved(t: seq<Entry>, i: int): int
    requires 0 <= i < |t| && SynonymsResolve(t)
  {
    if t[i].Synonym? then IndexOf(t, t[i].target) else i
  }

  /** A decoded built-in picture: distinct frames, each marking the stream
      as its owner (so the slideshow code clones rather than modifies it),
      and a loop count that is never negative. */
  ghost predicate IsBuiltIn(s: Stream)
    reads s, (set img | img in s.images)`userData
  {
    && Distinct(s.images)
    && (forall k :: 0 <= k < |s.images| ==> s.images[k].userData == BuiltIn(s))
    && s.loopcount >= 0
  }

  /** The loop count of a built-in picture: "play once" becomes "loop forever". */
  function ForcedLoop(loopcount: int): (r: int)
    ensures r >= 0 && (loopcount >= 0 ==> r == loopcount)
  {
    if loopcount < 0 then 0 else loopcount
  }

  /** The stream fields of a decoded record, which nothing changes later:
      the frame count, the screen, the (forced) loop count, the palette. */
  ghost predicate Keeps(s: Stream, v: SourceVal)
    reads s
  {
    && |s.images| == |v.frames|
    && s.screenWidth == v.screenWidth && s.screenHeight == v.screenHeight
    && s.loopcount == ForcedLoop(v.loopcount)
    && s.global == v.global && s.background == v.background && s.errors == v.errors
  }

  /** The state get_built_in_image has just produced for a record. */
  ghost predicate Decoded(s: Stream, v: SourceVal)
    reads s, set img | img in s.images
  {
    Keeps(s, v) && FramesOf(s.images) == v.frames
  }

  /** s holds the frames of record v, up to the delay a merge gives the
      frame of a one-frame source: that write is the only change merging
      makes to a frame that has an owner. */
  ghost predicate Holds(s: Stream, v: SourceVal)
    reads s, (set img | img in s.images)`content
  {
    && |s.images| == |v.frames|
    && forall k :: 0 <= k < |s.images| ==>
         Compose.SourceFrame(Frame(s.images[k]), |s.images|) == Compose.SourceFrame(v.frames[k], |v.frames|)
  }

  /** A stream that holds a record merges as that record does. */
  lemma HoldsSource(s: Stream, v: SourceVal)
    requires Holds(s, v)
    ensures Compose.SourceFrames(FramesOf(s.images)) == Compose.SourceFrames(v.frames)
  {
  }

  /** A freshly decoded stream holds its record. */
  lemma DecodedHolds(s: Stream, v: SourceVal)
    requires Decoded(s, v)
    ensures Holds(s, v)
  {
    forall k | 0 <= k < |s.images|
      ensures Compose.SourceFrame(Frame(s.images[k]), |s.images|) == Compose.SourceFrame(v.frames[k], |v.frames|)
    {
      assert Frame(s.images[k]) == FramesOf(s.images)[k];
    }
  }

  /** m1 is m0 with the keys `keys` mapped to s (those already in m0 were). */
  predicate Extends(m0: map<int, Stream>, m1: map<int, Stream>, keys: set<int>, s: Stream) {
    && m1.Keys == m0.Keys + keys
    && (forall j :: j in m0 ==> m1[j] == m0[j])
    && (forall j :: j in keys ==> m1[j] == s)
  }

  /** The table together with the stream each entry has been decoded to
      (the `gfs` of a named_record), keyed by entry index. */
  class PictureTable {
    const table: seq<Entry>
    var cache: map<int, Stream>
    /** The cached streams, and their frames. */
    ghost var Streams: set<Stream>
    ghost var Frames: set<Image>

    /** The cache invariant. It depends on the frames' owners only, so
        merging a built-in picture into a slideshow (which may change the
        content and reference count of its frames) keeps it. */
    ghost predicate Valid()
      reads this, Streams, Frames`userData
    {
      && SynonymsResolve(table)
      && (forall i :: i in cache ==> 0 <= i < |table| && cache[i] in Streams)
      && (forall i, k :: i in cache && 0 <= k < |cache[i].images| ==> cache[i].images[k] in Frames)
      && (forall img :: img in Frames ==> img.userData.BuiltIn?)
      && (forall i :: i in cache ==> EntryOk(i, cache[i]))
      && (forall i :: i in cache && table[i].Synonym? ==>
           Resolved(table, i) in cache && cache[Resolved(table, i)] == cache[i])
    }

    /** Entry i may keep s: s is a built-in stream holding the record of
        the picture entry i resolves to. */
    ghost predicate EntryOk(i: int, s: Stream)
      reads s, (set img | img in s.images)`userData
    {
      && 0 <= i < |table| && SynonymsResolve(table)
      && IsBuiltIn(s) && Keeps(s, table[Resolved(table, i)].record)
    }

    /** Every kept stream holds the record of the picture entry its entry
        resolves to. */
    ghost predicate Intact()
      requires Valid()
      reads this, Streams, Frames`userData, Frames`content
    {
      forall i :: i in cache ==> Holds(cache[i], table[Resolved(table, i)].record)
    }

    /** The cache only gains streams and frames, and all of them new. */
    twostate predicate Grown()
      reads this
    {
      && old(Streams) <= Streams && fresh(Streams - old(Streams))
      && old(Frames) <= Frames && fresh(Frames - old(Frames))
    }

    /** The cache stays valid while neither the table object, nor the
        cached streams, nor the owners of their frames change. */
    twostate lemma StillValid()
      requires old(Valid()) && unchanged(this)
      requires forall s :: s in Streams ==> unchanged(s)
      requires forall img :: img in Frames ==> unchanged(img`userData)
      ensures Valid()
    {
    }

    /** The records stay held while the cache and its streams do not
        change and the frames keep their content. */
    twostate lemma StillIntact()
      requires old(Valid()) && old(Intact()) && unchanged(this)
      requires forall s :: s in Streams ==> unchanged(s)
      requires forall img :: img in Frames ==> unchanged(img`userData, img`content)
      ensures Valid() && Intact()
    {
    }

    /** Merging the stream entry j keeps into a slideshow: its frames keep
        their content up to the one-frame delay, and no other frame of the
        cache changes, so every kept stream still holds its record. */
    twostate lemma MergedIntact(j: int)
      requires old(Valid()) && old(Intact()) && unchanged(this)
      requires forall s :: s in Streams ==> unchanged(s)
      requires forall img :: img in Frames ==> unchanged(img`userData)
      requires j in cache
      requires forall img :: img in Frames && img !in cache[j].images ==> Frame(img) == old(Frame(img))
      requires var add := cache[j]; forall k :: 0 <= k < |add.images| ==>
        Frame(add.images[k]) == Compose.SourceFrame(old(Frame(add.images[k])), |add.images|)
      ensures Valid() && Intact()
    {
      StillValid();
      var add := cache[j];
      forall i | i in cache
        ensures Holds(cache[i], table[Resolved(table, i)].record)
      {
        var s, v := cache[i], table[Resolved(table, i)].record;
        assert old(Holds(s, v));
        assert EntryOk(i, s) && EntryOk(j, add);
        forall k | 0 <= k < |s.images|
          ensures Compose.SourceFrame(Frame(s.images[k]), |s.images|) == Compose.SourceFrame(v.frames[k], |v.frames|)
        {
          if s == add {
            assert Frame(s.images[k]) == Compose.SourceFrame(old(Frame(s.images[k])), |s.images|);
          } else {
            assert s.images[k].userData == BuiltIn(s);
            assert s.images[k] !in add.images;
          }
        }
      }
    }

    constructor (table: seq<Entry>)
      requires SynonymsResolve(table)
      ensures this.table == table && cache == map[] && Valid() && Intact()
    {
      this.table := table;
      cache := map[];
      Streams, Frames := {}, {};
    }

    /** Entry `i` keeps `gfs`, which is built in and, for a synonym, the
        stream its picture entry keeps. */
    method Remember(i: int, gfs: Stream)
      requires Valid() && Intact()
      requires EntryOk(i, gfs) && gfs in Streams && forall k :: 0 <= k < |gfs.images| ==> gfs.images[k] in Frames
      requires table[i].Synonym? ==> Resolved(table, i) in cache && cache[Resolved(table, i)] == gfs
      requires table[i].Picture? ==> i !in cache
      requires Holds(gfs, table[Resolved(table, i)].record)
      modifies this`cache
      ensures Extends(old(cache), cache, {i}, gfs) && Valid() && Intact()
    {
      cache := cache[i := gfs];
      assert Valid();
      forall j | j in cache
        ensures Holds(cache[j], table[Resolved(table, j)].record)
      {
        if j != i {
          assert cache[j] == old(cache)[j];
        }
      }
    }

    /** Picture entry `i` keeps the newly decoded stream `gfs`. */
    method Adopt(i: int, gfs: Stream)
      requires Valid() && 0 <= i < |table| && table[i].Picture? && i !in cache
      requires EntryOk(i, gfs) && Intact() && Holds(gfs, table[i].record)
      modifies this`cache, this`Streams, this`Frames
      ensures Valid() && Intact() && Extends(old(cache), cache, {i}, gfs)
      ensures Streams == old(Streams) + {gfs}
      ensures Frames == old(Frames) + set k | 0 <= k < |gfs.images| :: gfs.images[k]
    {
      Streams := Streams + {gfs};
      Frames := Frames + set k | 0 <= k < |gfs.images| :: gfs.images[k];
      assert Valid() && Intact();
      Remember(i, gfs);
    }

    /** The first use of picture entry `i`: its record decoded, and kept. */
    method LoadPicture(i: int) returns (gfs: Stream)
      requires Valid() && Intact() && 0 <= i < |table| && table[i].Picture? && i !in cache
      modifies this`cache, this`Streams, this`Frames
      ensures Valid() && Intact() && Grown()
      ensures fresh(gfs) && Decoded(gfs, table[i].record)
      ensures Extends(old(cache), cache, {i}, gfs)
    {
      gfs := DecodePicture(table[i].record);
      DecodedHolds(gfs, table[i].record);
      Adopt(i, gfs);
    }

    /** The first use of synonym entry `i`: the stream of the picture it
        stands for, which entry `i` now keeps as well. */
    method LoadSynonym(i: int) returns (gfs: Stream)
      requires Valid() && Intact() && 0 <= i < |table| && table[i].Synonym? && i !in cache
      modifies this`cache, this`Streams, this`Frames
      ensures Valid() && Intact() && Grown()
      ensures var r := Resolved(table, i);
        && Extends(old(cache), cache, {r, i}, gfs)
        && (r !in old(cache) ==> fresh(gfs))
      decreases 1, 1
    {
      gfs := GetBuiltInImage(table[i].target);
      ghost var r := Resolved(table, i);
      assert r in cache && cache[r] == gfs && table[r].Picture?;
      assert Holds(gfs, table[Resolved(table, r)].record);
      Remember(i, gfs);
    }

    /** The stream entry `i` keeps, decoded on first use. */
    method Load(i: int) returns (gfs: Stream)
      requires Valid() && Intact() && 0 <= i < |table|
      modifies this`cache, this`Streams, this`Frames
      ensures Valid() && Intact() && Grown() && i in cache && cache[i] == gfs
      ensures i in old(cache) ==> cache == old(cache)
      ensures i !in old(cache) ==>
        var r := Resolved(table, i);
        && Extends(old(cache), cache, {r, i}, gfs)
        && (r !in old(cache) ==> fresh(gfs))
      decreases if table[i].Synonym? then 1 else 0, 2
    {
      if i in cache {
        return cache[i];
      }
      match table[i]
      case Synonym(_, _) =>
        gfs := LoadSynonym(i);
      case Picture(_, _) =>
        gfs := LoadPicture(i);
        assert {Resolved(table, i), i} == {i};
    }

    /** get_built_in_image: the stream of a built-in picture, decoded on
        first use. An unknown name gives null; a known one the stream its
        resolved entry was (or is now) decoded to, which the entry keeps. */
    method GetBuiltInImage(name: string) returns (gfs: Stream?)
      requires Valid() && Intact()
      modifies this`cache, this`Streams, this`Frames
      ensures Valid() && Intact() && Grown()
      ensures IndexOf(table, name) < 0 ==> gfs == null && cache == old(cache)
      ensures var i := IndexOf(table, name);
        i >= 0 ==> gfs != null && i in cache && cache[i] == gfs
      ensures var i := IndexOf(table, name);
        i >= 0 && i in old(cache) ==> cache == old(cache)
      ensures var i := IndexOf(table, name);
        i >= 0 && i !in old(cache) ==>
          var r := Resolved(table, i);
          && Extends(old(cache), cache, {r, i}, gfs)
          && (r !in old(cache) ==> fresh(gfs))
      decreases var i := IndexOf(table, name); if 0 <= i < |table| && table[i].Synonym? then 1 else 0, 3
    {
      var i := 0;
      while i < |table| && table[i].name != name
        invariant 0 <= i <= |table|
        invariant IndexOf(table, name) == IndexFrom(table, name, i)
      {
        i := i + 1;
      }
      if i == |table| {
        return null;
      }
      gfs := Load(i);
    }
  }

  /** The decoding half of get_built_in_image: a fresh stream of fresh
      frames holding the record's content, made loop-forever when the
      record says "play once", with every frame owned by the stream. */
  method DecodePicture(record: SourceVal) returns (gfs: Stream)
    ensures fresh(gfs) && (forall k :: 0 <= k < |gfs.images| ==> fresh(gfs.images[k]))
    ensures IsBuiltIn(gfs) && Decoded(gfs, record)
    ensures forall k :: 0 <= k < |gfs.images| ==> gfs.images[k].refcount == 0 && gfs.images[k].freeCompressed
  {
    gfs := Decode(record);
    if gfs.loopcount < 0 {
      gfs.loopcount := 0;
    }
    MarkBuiltIn(gfs);
  }

  /** The user_data loop of get_built_in_image: every frame of a freshly
      decoded stream gets the stream as its owner. */
  method MarkBuiltIn(s: Stream)
    requires Distinct(s.images)
    modifies (set img | img in s.images)`userData
    ensures forall k :: 0 <= k < |s.images| ==> s.images[k].userData == BuiltIn(s)
    ensures FramesOf(s.images) == old(FramesOf(s.images))
  {
    ghost var fs := FramesOf(s.images);
    var k := 0;
    while k < |s.images|
      invariant 0 <= k <= |s.images|
      invariant forall j :: 0 <= j < k ==> s.images[j].userData == BuiltIn(s)
      invariant forall j :: 0 <= j < |s.images| ==> Frame(s.images[j]) == fs[j]
    {
      s.images[k].userData := BuiltIn(s);
      k := k + 1;
    }
  }
}
