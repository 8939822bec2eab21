/** What parse_slideshow makes of each name of a slideshow text: a `&` or
    `*` name is a built-in picture (with a monochrome-to-colour fallback),
    any other name, and a `&` name that is not built in, a GIF file. The
    functions here decide what every token contributes (a source, warnings
    and errors, the clock offset) without touching any object. */
module Resolve {

  import opened Wrappers
  import opened Gif
  import opened Catalog

  /** The size of parse_slideshow's text buffer. */
  const BUFSIZ: int := 8192
  /** The clock offsets of a slideshow's render cache. */
  const CLOCK_Y_OFF: int := 10
  const DEFAULT_CLOCK_X_OFF: int := 10
  const LOCKED_CLOCK_X_OFF: int := 65

  /** The warnings and errors parse_slideshow reports. */
  datatype Message =
    | NoMonoVersion(name: string)  // no monochrome version of built-in `name`; colour used
    | CannotOpen(path: string)     // fopen failed
    | NotGif(path: string)         // the file does not decode to a GIF

  /** What a file holds for the decoder: nothing it can read, or the
      decoded GIF. A path that is not a key of the file map cannot be
      opened. */
  datatype FileResult = Unreadable | Read(v: SourceVal)

  /** What a token is resolved to: the built-in picture of table entry
      `entry` (found under `name`, by the colour fallback if `fallback`), a
      file to load, or nothing. */
  datatype Choice =
    | UseBuiltIn(entry: int, name: string, fallback: bool)
    | LoadFile(path: string)
    | Skip

  /** A source a token adds to the slideshow: a built-in picture, by table
      entry, or the content of a file. */
  datatype Pick = FromTable(entry: int) | FromFile(v: SourceVal)

  /** A token that names a built-in picture: `&name` (a file if not built
      in) or `*name` (nothing if not built in). */
  predicate MarksBuiltIn(token: string) {
    |token| > 0 && (token[0] == '&' || token[0] == '*')
  }

  /** The name looked up for a built-in token: the token without its mark,
      with "mono" appended on a monochrome display. */
  function BuiltInName(token: string, mono: bool): (name: string)
    requires MarksBuiltIn(token)
    ensures |name| == |token| - 1 + (if mono then 4 else 0)
    ensures name[..|token| - 1] == token[1..]
  {
    token[1..] + (if mono then "mono" else "")
  }

  /** A name longer than "mono" that ends in "mono". */
  predicate EndsInMono(name: string) {
    |name| > 4 && name[|name| - 4..] == "mono"
  }

  /** The token's resolution: the built-in of its name; else, for a name
      ending in "mono", the built-in of the name without it; else nothing
      for `*` and the file of the name without the mark for `&`. A name
      without mark is a file. */
  function Choose(t: seq<Entry>, token: string, mono: bool): (c: Choice)
    ensures c.UseBuiltIn? ==> MarksBuiltIn(token) && c.entry == IndexOf(t, c.name) && 0 <= c.entry < |t|
    ensures c.Skip? ==> MarksBuiltIn(token) && token[0] == '*'
    ensures MarksBuiltIn(token) && !c.UseBuiltIn? ==> c == if token[0] == '*' then Skip else LoadFile(token[1..])
    ensures !MarksBuiltIn(token) ==> c == LoadFile(token)
  {
    if !MarksBuiltIn(token) then LoadFile(token)
    else
      var name := BuiltInName(token, mono);
      if IndexOf(t, name) >= 0 then UseBuiltIn(IndexOf(t, name), name, false)
      else if EndsInMono(name) && IndexOf(t, name[..|name| - 4]) >= 0 then
        UseBuiltIn(IndexOf(t, name[..|name| - 4]), name[..|name| - 4], true)
      else if token[0] == '*' then Skip
      else LoadFile(token[1..])
  }

  /** A GIF the slideshow takes: not one that decoded to no frame with
      errors. */
  predicate IsGif(v: SourceVal) {
    !(|v.frames| == 0 && v.errors > 0)
  }

  /** The errors of loading a file. */
  function FileMessages(files: map<string, FileResult>, path: string): seq<Message> {
    if path !in files then [CannotOpen(path)]
    else if files[path].Unreadable? || !IsGif(files[path].v) then [NotGif(path)]
    else []
  }

  /** The source a token adds, if any. */
  function PickOf(t: seq<Entry>, files: map<string, FileResult>, token: string, mono: bool): (ps: seq<Pick>)
    ensures |ps| <= 1
  {
    match Choose(t, token, mono)
    case UseBuiltIn(i, _, _) => [FromTable(i)]
    case LoadFile(path) =>
      if path in files && files[path].Read? && IsGif(files[path].v) then [FromFile(files[path].v)] else []
    case Skip => []
  }

  /** The warnings and errors a token causes. */
  function MessagesOf(t: seq<Entry>, files: map<string, FileResult>, token: string, mono: bool): seq<Message> {
    var c := Choose(t, token, mono);
    if c.LoadFile? then FileMessages(files, c.path) else Warning(c)
  }

  /** The warning of a built-in found by the colour fallback. */
  function Warning(c: Choice): seq<Message> {
    if c.UseBuiltIn? && c.fallback then [NoMonoVersion(c.name)] else []
  }

  /** The clock X offset a built-in token fixes, LOCKED_CLOCK_X_OFF when
      the looked-up name starts with "locked" (whether or not it is
      found); -1 for a file token, which fixes none. */
  function TokenClock(token: string, mono: bool): (x: int)
    ensures !MarksBuiltIn(token) <==> x == -1
  {
    if !MarksBuiltIn(token) then -1
    else
      var name := BuiltInName(token, mono);
      if |name| >= 6 && name[..6] == "locked" then LOCKED_CLOCK_X_OFF else DEFAULT_CLOCK_X_OFF
  }

  // ---------------------------------------------------------------------
  // The whole text, token after token

  /** The sources of a token sequence, in order. */
  function Picks(t: seq<Entry>, files: map<string, FileResult>, ts: seq<string>, mono: bool): seq<Pick>
    decreases |ts|
  {
    if ts == [] then []
    else Picks(t, files, ts[..|ts| - 1], mono) + PickOf(t, files, ts[|ts| - 1], mono)
  }

  /** The messages of a token sequence, in order. */
  function Messages(t: seq<Entry>, files: map<string, FileResult>, ts: seq<string>, mono: bool): seq<Message>
    decreases |ts|
  {
    if ts == [] then []
    else Messages(t, files, ts[..|ts| - 1], mono) + MessagesOf(t, files, ts[|ts| - 1], mono)
  }

  /** The clock X offset fixed by a token sequence, -1 if none is. */
  function ClockOf(ts: seq<string>, mono: bool): int
    decreases |ts|
  {
    if ts == [] then -1
    else
      var c := ClockOf(ts[..|ts| - 1], mono);
      if c >= 0 then c else TokenClock(ts[|ts| - 1], mono)
  }

  /** The clock X offset the render cache gets. */
  function ClockXOff(clock: int): (x: int)
    ensures x == LOCKED_CLOCK_X_OFF || x == DEFAULT_CLOCK_X_OFF || x == clock
  {
    if clock < 0 then DEFAULT_CLOCK_X_OFF else clock
  }

  /** The first built-in token fixes the clock offset, and later tokens do
      not change it. */
  lemma {:induction false} ClockOfFirst(ts: seq<string>, mono: bool, k: nat)
    requires k < |ts| && MarksBuiltIn(ts[k])
    requires forall j :: 0 <= j < k ==> !MarksBuiltIn(ts[j])
    ensures ClockOf(ts, mono) == TokenClock(ts[k], mono)
    decreases |ts|
  {
    if k < |ts| - 1 {
      var front := ts[..|ts| - 1];
      assert front[k] == ts[k];
      ClockOfFirst(front, mono, k);
    } else {
      ClockOfNone(ts[..|ts| - 1], mono);
    }
  }

  /** Without a built-in token no clock offset is fixed (the cache then
      gets DEFAULT_CLOCK_X_OFF). */
  lemma {:induction false} ClockOfNone(ts: seq<string>, mono: bool)
    requires forall j :: 0 <= j < |ts| ==> !MarksBuiltIn(ts[j])
    ensures ClockOf(ts, mono) == -1
    decreases |ts|
  {
    if ts != [] {
      ClockOfNone(ts[..|ts| - 1], mono);
    }
  }

  /** Every fixed clock offset is one of the two offsets the code uses. */
  lemma {:induction false} ClockOfValues(ts: seq<string>, mono: bool)
    ensures var c := ClockOf(ts, mono); c == -1 || c == LOCKED_CLOCK_X_OFF || c == DEFAULT_CLOCK_X_OFF
    decreases |ts|
  {
    if ts != [] {
      ClockOfValues(ts[..|ts| - 1], mono);
    }
  }

  // ---------------------------------------------------------------------
  // Resolution of single tokens

  /** A built-in name that is found is used, with no message. */
  lemma ChooseFound(t: seq<Entry>, files: map<string, FileResult>, token: string, mono: bool)
    requires MarksBuiltIn(token) && IndexOf(t, BuiltInName(token, mono)) >= 0
    ensures var name := BuiltInName(token, mono);
      && Choose(t, token, mono) == UseBuiltIn(IndexOf(t, name), name, false)
      && PickOf(t, files, token, mono) == [FromTable(IndexOf(t, name))]
      && MessagesOf(t, files, token, mono) == []
  {
  }

  /** The colour fallback: on a monochrome display a picture without a
      "mono" entry is shown in colour, with a warning naming it. */
  lemma {:induction false} ChooseColour(t: seq<Entry>, files: map<string, FileResult>, mark: char, base: string)
    requires mark == '&' || mark == '*'
    requires |base| > 0 && IndexOf(t, base + "mono") < 0 && IndexOf(t, base) >= 0
    ensures var token := [mark] + base;
      && Choose(t, token, true) == UseBuiltIn(IndexOf(t, base), base, true)
      && PickOf(t, files, token, true) == [FromTable(IndexOf(t, base))]
      && MessagesOf(t, files, token, true) == [NoMonoVersion(base)]
  {
    var token := [mark] + base;
    var name := BuiltInName(token, true);
    assert name == base + "mono";
    assert name[..|name| - 4] == base;
  }

  /** A `*` token that names no built-in picture adds nothing and reports
      nothing. */
  lemma StarUnknown(t: seq<Entry>, files: map<string, FileResult>, token: string, mono: bool)
    requires MarksBuiltIn(token) && token[0] == '*'
    requires var name := BuiltInName(token, mono);
      IndexOf(t, name) < 0 && (EndsInMono(name) ==> IndexOf(t, name[..|name| - 4]) < 0)
    ensures Choose(t, token, mono) == Skip
    ensures PickOf(t, files, token, mono) == [] && MessagesOf(t, files, token, mono) == []
  {
  }

  /** A `&` token that names no built-in picture loads the file of the name
      without the `&`. */
  lemma AmpersandUnknown(t: seq<Entry>, files: map<string, FileResult>, token: string, mono: bool)
    requires MarksBuiltIn(token) && token[0] == '&'
    requires var name := BuiltInName(token, mono);
      IndexOf(t, name) < 0 && (EndsInMono(name) ==> IndexOf(t, name[..|name| - 4]) < 0)
    ensures Choose(t, token, mono) == LoadFile(token[1..])
    ensures MessagesOf(t, files, token, mono) == FileMessages(files, token[1..])
  {
  }

  /** A file that cannot be opened, or is no GIF, adds nothing and is
      reported; a GIF file adds its content. */
  lemma FileToken(t: seq<Entry>, files: map<string, FileResult>, token: string, mono: bool)
    requires !MarksBuiltIn(token)
    ensures token !in files ==> PickOf(t, files, token, mono) == [] && MessagesOf(t, files, token, mono) == [CannotOpen(token)]
    ensures token in files && (files[token].Unreadable? || !IsGif(files[token].v)) ==>
      PickOf(t, files, token, mono) == [] && MessagesOf(t, files, token, mono) == [NotGif(token)]
    ensures token in files && files[token].Read? && IsGif(files[token].v) ==>
      PickOf(t, files, token, mono) == [FromFile(files[token].v)] && MessagesOf(t, files, token, mono) == []
  {
  }

  /** The table of pictures.c has no "koreanmono": on a monochrome display
      `&korean` shows the colour "korean" picture and warns. */
  lemma KoreanInMono(t: seq<Entry>, files: map<string, FileResult>)
    requires BuiltInTable(t)
    ensures Choose(t, "&korean", true) == UseBuiltIn(24, "korean", true)
    ensures MessagesOf(t, files, "&korean", true) == [NoMonoVersion("korean")]
  {
    BuiltInTargets(t);
    forall j | 0 <= j < |t| ensures t[j].name != "koreanmono" {
      if j < |PICTURE_NAMES| {
        assert t[j].name == PICTURE_NAMES[j];
      } else {
        assert t[j].name == SYNONYMS[j - |PICTURE_NAMES|].0;
      }
    }
    ChooseColour(t, files, '&', "korean");
  }
}
