# xwrits slideshows, hands and time arithmetic in Dafny

xwrits is an X11 program that reminds typists to take breaks. It does this
by showing warning windows, called *hands*, that play animated GIF
*slideshows*. This project models three parts of the program and proves
properties about them:

- **Slideshows** (`pictures.c`):
  - the catalog of compiled-in pictures, which decodes a picture on first
    use, keeps it, and resolves names that stand for another picture;
  - merging a GIF stream into a slideshow, which sets the palette and loop
    count, grows the screen, clones shared frames, clamps delays and
    replicates looping sources;
  - `parse_slideshow`, which tokenises the slideshow text, resolves the
    `&` and `*` built-in tokens with the monochrome-to-colour fallback,
    loads the other tokens as files, fixes the screen size and attaches
    the reference-counted picture list (the per-port render cache);
  - `set_slideshow` and `set_all_slideshows`, which move a hand to another
    slideshow. The hand keeps the frame it showed when that object is in
    the new slideshow, and its frame timer is moved with it.
- **Hands** (`hands.c`):
  - each port keeps a list of hands, a list of icon hands and a permanent
    hand;
  - the overlap-minimising choice of a position for a new hand;
  - creating a toplevel hand with its icon, or a subwindow hand;
  - destroying a hand, which only hides the permanent hand;
  - unmapping every hand of every port;
  - counting active hands, finding the hand of a window, drawing a slide
    through the render cache, and finding some hand to show on a port.
- **Time** (`xwrits.h`): the `(sec, usec)` macros that add and subtract
  times and centisecond delays, compare times, and take the earlier of two
  times.

The files follow the program's structure:

| file | module | what |
|---|---|---|
| `wrappers.dfy` | `Wrappers` | `Option` |
| `cint.dfy` | `CInt` | C's truncating `/` and `%`, the `(int)` cast of a double, 32-bit unsigned wrap-around |
| `timeval.dfy` | `Timeval` | the timeval macros |
| `alarms.dfy` | `Alarms` | the alarm queue, as a map from (action, object) to time |
| `gif.dfy` | `Gif` | frames (`Image`), streams (`Stream`), picture lists (`PictureList`), frame owners (`user_data`) |
| `catalog.dfy` | `Catalog` | `built_in_pictures` and `get_built_in_image` |
| `compose.dfy` | `Compose` | `clone_image_skeleton` and `add_stream_to_slideshow` |
| `tokens.dfy` | `Tokens` | the tokeniser of `parse_slideshow` |
| `resolve.dfy` | `Resolve` | what each token contributes: source, warnings and errors, clock offset |
| `parse.dfy` | `Parse` | `parse_slideshow`, `add_picturelist` and `free_picturelist` |
| `binding.dfy` | `Binding` | `set_slideshow` and `set_all_slideshows` |
| `hands.dfy` | `Hands` | ports and hands, `get_icon_size`, `get_best_position`, `new_hand`, `new_hand_subwindow` |
| `hand_queries.dfy` | `HandQueries` | `window_to_hand` and `active_hands` |
| `hand_life.dfy` | `HandLife` | `destroy_hand` and `unmap_all` |
| `hand_show.dfy` | `HandShow` | `draw_slide`, `hand_map_raised` and `find_one_hand` |

Modelling choices:

- **Objects stay objects.** Frames, streams, picture lists, ports and
  hands are classes, because their identity matters. Replication appends
  the same frame references again. `set_slideshow` compares frames by
  identity. Hands are found by identity in the lists.
- **Linked lists are sequences.** The doubly linked `hands` and
  `icon_hands` lists are `seq<Hand>` fields of the port. Head insertion
  prepends, and unlinking removes the element (`HandLife.Without`).
- **Library results are values.** A decoded GIF (compiled-in record or
  file) is the value `SourceVal`. Decoding builds fresh objects from it.
  File contents are a map from file name to `FileResult`.
- **Environment inputs are parameters.** The outcome of the allocations
  in `add_picturelist` is given as parameters (`allocOk`, `made`). So are
  the current time (`now`), `rand()` values and the size hints of the
  window manager.
- **Timers are a map.** The alarm queue is the map `Scheduler.pending`
  from (action, object) to the time at which it fires.
- **Reals and C arithmetic.** `flash_rate_ratio` is a Dafny `real`. C's
  truncating `/`, `%` and `(int)` casts of doubles are written out
  (`CInt`), so is the 32-bit unsigned penalty sum of `get_best_position`,
  and so is the `(uint16_t)` cast of a merged delay.
- **Field names follow `hands.c`.** The `Port` and `Hand` fields are the
  ones `hands.c` uses (`master`, `hands`, `icon_hands`, `permanent_hand`,
  `left`/`top`, `permanent`, `withdrawn`, `toplevel`, `port`). The
  declarations in `xwrits.h:34-53` and `xwrits.h:164-188` lack these
  fields. `xwrits.h:197` also declares `new_hand` with two parameters,
  while `hands.c:110` defines it with three. The model follows `hands.c`.
  A master port is a `Port` whose `slaveOf` is null.

Where the code does something a reader might not expect, the model
follows the code:

- `add_picturelist` returns 0, not -1, when `Gif_NewXFrames` fails
  (`pictures.c:79-80`). The parse then succeeds with a picture list that
  owns no frame.
- The synthesised loop count of a source with loop count 0 is computed
  only when frames came *before* that source (`first > 0`,
  `pictures.c:201-203`).
- The one-frame delay is written into the source's own frame
  (`pictures.c:158-159`). For a compiled-in picture that frame is the
  shared one kept in the catalog.
- A token is a name up to a delimiter, and the delimiter is consumed with
  it. So `"a ; b"` and a text ending in two blanks give an empty token,
  which is then opened as the file `""`.

## Model

| member | source | states |
|---|---|---|
| CInt.TruncDiv | hands.c:138-140 | C's `/` agrees with Euclidean division on non-negative operands |
| CInt.TruncDivMod | hands.c:149-150 | C's `/` and `%`: `a == q*b + r`, and the remainder has the sign of `a` and is smaller than `abs(b)` |
| CInt.TruncReal | pictures.c:206-207 | the `(int)` cast of a double truncates toward zero |
| CInt.U32 | hands.c:52-64 | an `unsigned int` value lies in `[0, 2^32)` and is the value itself when it fits |
| CInt.I32 | hands.c:347-350 | converting an unsigned value back to `int` gives a value in the signed range, unchanged below `2^31` |
| Timeval.NormalUnique | xwrits.h:281 | two normalised timevals with the same total of microseconds are equal |
| Timeval.AddTime | xwrits.h:286-291 | `xwADDTIME` adds total microseconds and keeps `usec` in `[0, 10^6)` for normalised inputs |
| Timeval.SubTime | xwrits.h:293-298 | `xwSUBTIME` subtracts total microseconds and keeps `usec` in `[0, 10^6)` for normalised inputs |
| Timeval.SubTimeAddTime | xwrits.h:286-298 | `SUBTIME(ADDTIME(a, b), b) == a` for normalised `a` and `b` |
| Timeval.TimeGeq | xwrits.h:306-307 | `xwTIMEGEQ` is `>=` on total microseconds for normalised times |
| Timeval.TimeGt | xwrits.h:309-310 | `xwTIMEGT` is `>` on total microseconds for normalised times |
| Timeval.TimeLeq0 | xwrits.h:312 | `xwTIMELEQ0` is `<= 0` on total microseconds for a normalised time |
| Timeval.SetMinTime | xwrits.h:300-304 | `xwSETMINTIME` leaves one of the two times; it moves to `b` exactly when `b` is earlier, and for normalised times it leaves the smaller total |
| Timeval.AddDelay | xwrits.h:329-334 | `xwADDDELAY` adds `d` centiseconds (`d*10000` µs) and keeps `usec` normalised when `d >= 0` |
| Timeval.SubDelay | xwrits.h:336-341 | `xwSUBDELAY` subtracts `d*10000` µs and keeps `usec` normalised when `d >= 0` |
| Timeval.SubDelayAddDelay | xwrits.h:329-341 | `SUBDELAY(ADDDELAY(a, d), d) == a` for normalised `a` and `d >= 0` |
| Timeval.AddDelaySubDelay | xwrits.h:329-341 | `ADDDELAY(SUBDELAY(a, d), d) == a` for normalised `a` and `d >= 0` |
| Timeval.Reschedule | pictures.c:338-351 | moving a timer from an old delay to a new one gives a normalised time that is later by exactly the difference of the delays |
| Alarms.Scheduler.constructor | xwrits.h:130-137 | the alarm queue starts empty |
| Alarms.Scheduler.Find | pictures.c:334 | the pending alarm of an (action, object) pair, present exactly when one is scheduled |
| Alarms.Scheduler.Schedule | pictures.c:349-352 | scheduling sets the pair's time and changes no other alarm |
| Alarms.Scheduler.Unschedule | pictures.c:325 | unscheduling removes exactly the pair's alarm |
| Gif.Image.constructor | pictures.c:132 | a new frame with the given content, no owner and reference count 0, owning its compressed data as told |
| Gif.Stream.Empty | pictures.c:229 | a new stream has no frames, screen 0×0, no loop extension (-1), no palette and no errors |
| Gif.Decode | pictures.c:110-112 | decoding builds a fresh stream of distinct fresh frames with exactly the source's content and header, unowned and owning their compressed data |
| Gif.PictureList.constructor | pictures.c:69-77 | a new picture list records the stream and the clock offsets, with reference count 0 and no render slots |
| Catalog.BuiltInTargets | pictures.c:43-46 | in the table of pictures.c, "korean" is entry 24 and "koreanicon" entry 25 |
| Catalog.BuiltInTableResolves | pictures.c:45-46 | every synonym of the table names a picture entry |
| Catalog.IndexFrom | pictures.c:97-100 | the scan finds the first entry with the name, or -1 exactly when no entry has it |
| Catalog.IndexFromFirst | pictures.c:97-100 | the first entry carrying a name is the one the scan returns |
| Catalog.ForcedLoop | pictures.c:118 | a built-in picture's loop count is never negative, and a non-negative one is kept |
| Catalog.HoldsSource | pictures.c:158-159 | a stream holding a record, up to the delay a one-frame source gets, has the record's frames as they are merged |
| Catalog.DecodedHolds | pictures.c:110-121 | a freshly decoded picture holds its record |
| Catalog.PictureTable.constructor | pictures.c:23-50 | the table starts with no picture decoded |
| Catalog.PictureTable.StillValid | pictures.c:97-121 | the cache stays valid while the table, the kept streams and their frames' owners do not change |
| Catalog.PictureTable.StillIntact | pictures.c:272-284 | every kept stream still holds its record while no catalog frame changes content or owner |
| Catalog.PictureTable.MergedIntact | pictures.c:158-159 | merging a kept picture, which changes its frames at most by the one-frame delay and leaves every other catalog frame alone, keeps every record held |
| Catalog.PictureTable.Remember | pictures.c:103-108 | storing a stream for an entry adds exactly that entry to the cache and changes no other entry |
| Catalog.PictureTable.Adopt | pictures.c:110 | a decoded stream becomes the entry's stream, and its frames are added to the catalog's frames |
| Catalog.PictureTable.LoadPicture | pictures.c:110-121 | a picture entry's first lookup decodes its record into a fresh stream with a forced loop count whose frames are owned by the stream, and memoises it |
| Catalog.PictureTable.LoadSynonym | pictures.c:105-108 | a synonym's first lookup memoises, under both names, the very stream of the entry it stands for |
| Catalog.PictureTable.Load | pictures.c:102-121 | a memoised entry returns its stream with the cache unchanged; otherwise the entry (and its target) is added |
| Catalog.PictureTable.GetBuiltInImage | pictures.c:90-124 | the lookup loop finds the first entry with the name; an unknown name returns null and changes nothing; a known one returns the entry's stream, the same stream on every later lookup, and for a synonym the target's stream |
| Catalog.DecodePicture | pictures.c:110-121 | a compiled-in record decodes to a fresh built-in stream, its frames owned by the stream, unreferenced, with their compressed data marked to be freed, and carrying the record's content |
| Catalog.MarkBuiltIn | pictures.c:120-121 | every frame of a decoded picture gets the stream as its owner; only the owner field is written, so no frame content, reference count or free flag changes |
| Compose.ClampDelay | pictures.c:189-193 | a merged delay lies in `[4, 65535]`: 65535 when `delay*ratio` is negative or at least 65535, 4 below 4, and the truncated product otherwise |
| Compose.ClampDelayUnit | pictures.c:189-193 | with ratio 1 a delay already in `[4, 65535)` is kept |
| Compose.SourceFrames | pictures.c:158-159 | a one-frame source's frame gets the delay 200 and nothing else changes; other sources are unchanged |
| Compose.Adapted | pictures.c:183-193 | a merged frame has the clamped delay, its own palette or else the source's global one, and every other field of the source frame |
| Compose.AdaptAll | pictures.c:178-196 | every frame of a source is adapted, in order |
| Compose.TotalDelayBound | pictures.c:204-207 | the delays of n clamped frames sum to at least `4*n`, so the division that synthesises a loop count never divides by 0 |
| Compose.TotalDelaySnoc | pictures.c:204-205 | the delay sum grows by the delay of each frame added |
| Compose.Repeat | pictures.c:209-211 | `c` repetitions of a sequence have `c` times its length |
| Compose.RepeatIndex | pictures.c:209-211 | repetition `i` of a sequence holds the sequence's elements in order |
| Compose.RepeatInRange | pictures.c:209-211 | repeating clamped frames keeps every delay in `[4, 65535]` |
| Compose.Copies | pictures.c:199-208 | the number of extra copies: 0 unless the source has several frames and a loop count `>= 0`; `min(loopcount, 20)` for a positive loop count; for loop count 0 the truncated `200*ratio / total delay` (never negative) when frames came before the source, else 0 |
| Compose.MergedDelays | pictures.c:158-212 | merging a source into a slideshow whose delays are in `[4, 65535]` keeps them there |
| Compose.MergedCount | pictures.c:199-212 | the slideshow grows by `n*(1 + copies)` frames, with `copies == min(loopcount, 20)` for a looping source of `n > 1` frames; it grows by exactly `n` when no loop count applies |
| Compose.MergedRepeats | pictures.c:209-211 | each extra copy is, position for position, the frame appended in the first pass |
| Compose.MergedHeader | pictures.c:162-175 | the screen becomes the per-axis maximum; loop count, palette and background come from the source only into an empty slideshow, and the palette and background only when the source has a palette |
| Compose.CloneImageSkeleton | pictures.c:129-147 | a clone is a fresh frame with the original's content, not owning the compressed data and unowned; the original's reference count rises by 1 |
| Compose.MergeFrame | pictures.c:179-193 | an unowned frame is itself adapted in place; an owned (shared) frame is cloned, and the clone is adapted while the original's content stays untouched |
| Compose.OwnersOf | pictures.c:181 | the owner of each frame, in order |
| Compose.AppendFrames | pictures.c:178-196 | the frame loop appends one adapted frame per source frame, in order, every one unowned; an unowned source frame is appended itself and keeps its reference count; for an owned (shared) frame a fresh clone is appended, and the source frame keeps its content and gains exactly one reference; the frames already there are unchanged |
| Compose.AppendStep | pictures.c:179-195 | one pass appends the merged frame and carries the loop invariant: earlier owned source frames untouched with one more reference each, later source frames untouched |
| Compose.SumDelays | pictures.c:204-205 | the loop sums the delays of the frames |
| Compose.LoopCount | pictures.c:199-208 | the computed loop count is the number of copies `Copies` prescribes |
| Compose.AppendCopy | pictures.c:210-211 | the inner loop appends the source's merged frames once more, the same references in the same order |
| Compose.RepeatStep | pictures.c:209-211 | one pass of the outer loop adds one more repetition |
| Compose.RepeatFrames | pictures.c:199-212 | the replication appends exactly `Copies` repetitions of the merged frames, the same references |
| Compose.AdaptSingleFrame | pictures.c:158-159 | the one-frame delay is written into the source frame; no owner changes |
| Compose.MergeStreamHeader | pictures.c:161-175 | the header of the slideshow becomes `MergedHeader` of the old header and the source's |
| Compose.AddFrames | pictures.c:157-196 | the header becomes `MergedHeader` and one adapted frame per source frame is appended; unowned source frames are appended themselves, owned ones are cloned and keep their content (up to the one-frame delay of `SourceFrame`) and gain one reference |
| Compose.AddStreamToSlideshow | pictures.c:149-213 | the slideshow's frames become `MergedFrames` (adapted frames then `copies` repetitions of the same references), its header `MergedHeader`; unowned source frames are appended themselves with their count kept, owned (shared) frames are replaced by fresh clones and keep their content, up to the one-frame delay, with one more reference |
| Compose.FramesOfConcat | pictures.c:195 | the content of concatenated frame lists is the concatenation of their contents |
| Compose.FramesOfRepeat | pictures.c:209-211 | the content of repeated frames is the repetition of their content |
| Tokens.SkipSpaces | pictures.c:236-237 | skipping white space leaves text that is empty or starts with a non-space |
| Tokens.NameLength | pictures.c:238-240 | a name ends at the first delimiter or at the end of the text |
| Tokens.TokensStep | pictures.c:232-242 | one scan step takes the name after the leading spaces and steps over its delimiter |
| Tokens.NameHasNoDelimiter | pictures.c:239 | no character of a name is a delimiter |
| Tokens.TokensHaveNoDelimiter | pictures.c:232-242 | no token contains white space or `;` |
| Tokens.SkipSpacesOver | pictures.c:236-237 | white space before a non-space is skipped entirely |
| Tokens.NameLengthOf | pictures.c:238-240 | a name followed by a delimiter is read whole |
| Tokens.TokensOfName | pictures.c:232-242 | spaces, a name and a delimiter give that name followed by the tokens of the rest |
| Tokens.TokensOfLastName | pictures.c:232-242 | a name at the end of the text is the last token |
| Tokens.TokensTrailingBlanks | pictures.c:286-289 | two blanks after the last name give one more, empty, token |
| Tokens.TokensOfBlank | pictures.c:232-242 | a lone blank gives one empty token |
| Tokens.ScanStep | pictures.c:232-289 | one pass of the scan loop at index `s` produces the name between the spaces and the delimiter |
| Tokens.SkipSpaceLoop | pictures.c:236-237 | the white-space loop stops at the first non-space |
| Tokens.NameLoop | pictures.c:238-240 | the name loop stops at the first delimiter |
| Tokens.Tokenize | pictures.c:232-289 | the tokenising walk yields exactly the names `Tokens` defines |
| Resolve.BuiltInName | pictures.c:246-248 | the built-in name is the token without its mark, followed by "mono" when mono is on |
| Resolve.Choose | pictures.c:244-269 | a marked token uses a built-in entry found under its name (or the colour name); otherwise a `*` token is skipped and an `&` token loads the file named without the mark; an unmarked token loads the file |
| Resolve.PickOf | pictures.c:244-284 | a token adds at most one source |
| Resolve.TokenClock | pictures.c:259-261 | a token claims a clock offset exactly when it is a built-in token |
| Resolve.ClockXOff | pictures.c:306 | the clock X offset is 65, 10 or the one claimed |
| Resolve.ClockOfFirst | pictures.c:259-261 | the clock offset is the one of the first built-in token, resolved or not |
| Resolve.ClockOfNone | pictures.c:223 | without a built-in token no clock offset is claimed |
| Resolve.ClockOfValues | pictures.c:261 | a claimed clock offset is 65 or 10 |
| Resolve.ChooseFound | pictures.c:250 | a built-in name in the table is used, with no message |
| Resolve.ChooseColour | pictures.c:252-256 | in mono mode a picture without a mono version falls back to the colour picture, with one warning |
| Resolve.StarUnknown | pictures.c:266-267 | an unresolved `*` token adds nothing and reports nothing |
| Resolve.AmpersandUnknown | pictures.c:268-269 | an unresolved `&` token is loaded as the file named without the `&` |
| Resolve.FileToken | pictures.c:273-284 | a file that cannot be opened reports an error; one that is not a GIF reports "not a GIF"; a GIF adds its content and no message |
| Resolve.KoreanInMono | pictures.c:43 | `&korean` in mono mode uses the colour picture, entry 24, with a warning |
| Parse.Merged | pictures.c:149-213 | merging a source keeps the slideshow's frames as a prefix and adds at least the source's frames |
| Parse.PlayOne | pictures.c:264 | playing one source is one merge |
| Parse.ComposedDelays | pictures.c:189-193 | every delay of a parsed slideshow lies in `[4, 65535]` |
| Parse.ComposedGrows | pictures.c:178-211 | each further source keeps the frames composed so far and adds at least its own |
| Parse.ComposedScreen | pictures.c:171-175 | the composed screen is the per-axis maximum of the sources' screens (0 when none) |
| Parse.FirstSourceHeader | pictures.c:162-169 | the first source with frames decides loop count, palette and background |
| Parse.KeptHeader | pictures.c:162 | once a slideshow has frames, its loop count, palette and background never change |
| Parse.RepeatFrom | pictures.c:209-211 | a repetition holds only elements of what is repeated |
| Parse.UnownedAppend | pictures.c:181-182 | appending unowned frames and their repetitions keeps every frame unowned |
| Parse.MergedBySource | pictures.c:149-213 | a merge depends on a source only through its frames as merged (`SourceFrames`) and its header |
| Parse.MatchedMerge | pictures.c:263-264 | a source merges as the table record or file its pick stands for |
| Parse.PlayByPicks | pictures.c:229-290 | sources matching the picks compose to the slideshow the picks stand for, so the result depends only on the table's records and the files |
| Parse.MergeInto | pictures.c:264 | merging a stream changes the slideshow by exactly `Merged` of the stream's content; its shared frames keep their content up to the one-frame delay and gain one reference |
| Parse.LoadFile | pictures.c:272-284 | a file token reports what `FileMessages` says and merges the file's content exactly when it is a GIF |
| Parse.LookUp | pictures.c:246-258 | the token's built-in stream is found exactly when `Choose` uses a built-in entry; it is that entry's stream, and the warning is the one `Choose` implies |
| Parse.Apart | pictures.c:181 | a built-in stream's frames are not frames of the slideshow being built |
| Parse.MergeBuiltIn | pictures.c:263-265 | a found built-in picture is merged as one source matching its table entry; each of its frames gains one reference, and every catalog picture still holds its record (`Intact`) |
| Parse.NotFound | pictures.c:266-269 | an unresolved `*` token adds nothing; an unresolved `&` token loads the file |
| Parse.BuiltInOutcome | pictures.c:244-270 | a built-in token's messages and picks: the warning and the entry when a picture is chosen, nothing for `*`, the file's for `&` |
| Parse.BuiltInToken | pictures.c:244-270 | a built-in token reports `MessagesOf` and merges exactly the sources `PickOf` names; every catalog picture still holds its record |
| Parse.ParseToken | pictures.c:244-284 | any token reports `MessagesOf`, claims `TokenClock`, and merges the sources `PickOf` names; every catalog picture still holds its record |
| Parse.MergeStep | pictures.c:232-290 | one pass of the token loop extends the messages, the clock offset and the matched sources by one token, keeping the catalog's records held |
| Parse.NewSlideshow | pictures.c:229-230 | the slideshow starts empty with loop count 0 |
| Parse.MergeTokens | pictures.c:229-290 | the token loop leaves a fresh slideshow composed of sources matching the tokens' picks, with their messages and the first claimed clock offset; every catalog picture still holds its record |
| Parse.MaxWidth | pictures.c:295-301 | the largest frame width: at least every frame's and never negative |
| Parse.MaxHeight | pictures.c:295-301 | the largest frame height: at least every frame's and never negative |
| Parse.MaxAttained | pictures.c:295-301 | the largest width and height are those of some frame, or 0 |
| Parse.FinalScreenHolds | pictures.c:292-302 | with frames of positive size the final screen is positive, and when it was replaced every frame fits in it |
| Parse.FixScreen | pictures.c:292-302 | if either screen dimension is 0 or there is one frame, the screen becomes the maximum frame width and height |
| Parse.Made | pictures.c:78-80 | the number of ports whose render slots were made before the first failure |
| Parse.Unrendered | pictures.c:78-79 | a new render slot row has no frame rendered |
| Parse.AddPicturelist | pictures.c:65-87 | -1 only when the allocation fails; otherwise a fresh list with the clock offsets, one row of unrendered slots per port made; if all ports were made, every frame is owned by the list and its count equals the frame count, else no frame changes owner |
| Parse.FreePicturelist | pictures.c:53-63 | each release lowers the count by 1, and the list is freed (its slots dropped) exactly when the count reaches 0 |
| Parse.ParseSlideshow | pictures.c:215-310 | text of length `>= BUFSIZ` gives null; otherwise the messages are those of the tokens, the frames and header are `Composed` of the sources the picks name (table records and files), the result is null exactly when a non-empty slideshow's list cannot be allocated, and the screen is `FinalScreen`; when every port's render slots were made, every frame belongs to the list, whose count is the frame count and whose clock X offset is fixed by the first built-in token; when `Gif_NewXFrames` fails the frames stay unowned and the list's count is 0; every catalog picture still holds its record |
| Parse.Finish | pictures.c:292-309 | the screen is fixed and, with frames, the picture list is attached; a failed allocation gives null |
| Binding.LastMatch | pictures.c:342-344 | the frame to continue with is the last index after 0 holding the old frame object, else 0 (-1 for no frames) |
| Binding.FindMatch | pictures.c:342-344 | the search loop returns `LastMatch` |
| Binding.CurrentDelay | pictures.c:336-339 | there is an old delay exactly when the hand shows a slideshow |
| Binding.NewSlide | pictures.c:336-345 | without an old slideshow the new slide is 0 |
| Binding.SameFrameSameTimer | pictures.c:336-351 | when the old frame object is found again, the hand shows the same frame and its timer fires at the same moment |
| Binding.Resume | pictures.c:329-345 | the new slide is `NewSlide`, a valid index, and the flash starts at the old timer minus the old delay, or now without one |
| Binding.MoveFlash | pictures.c:347-356 | a slideshow of several frames schedules the hand's flash timer; one of one frame removes it |
| Binding.SetSlideshow | pictures.c:313-377 | the same stream changes nothing, the render cache included; null clears the binding and unschedules the flash, cache unchanged; otherwise the hand shows the stream from `NewSlide` with loop count 0, a timer at the flash start plus the new delay exactly when the stream has several frames, and the slide drawn through the cache; no other timer and no other field of the cache changes |
| Binding.StatesOf | pictures.c:386-387 | the slideshow, slide and loop count of each hand |
| Binding.NextSlide | pictures.c:336-345 | the frame a moving hand continues with is an index of the new stream |
| Binding.PaintedShape | hands.c:496-498 | drawing keeps the number of render slots of every port |
| Binding.NothingPainted | pictures.c:321-326 | without a draw the render cache is unchanged |
| Binding.StepTimers | pictures.c:347-356 | changing one hand's flash timer keeps every other hand's flash timer and every other timer |
| Binding.ProgressStep | pictures.c:386-387 | moving hand `i` extends the loop's progress by one hand |
| Binding.Pass | pictures.c:386-387 | the loop body carries the progress and the painted cache from hand `i` to hand `i + 1` |
| Binding.SetEach | pictures.c:386-387 | the hand loop moves every hand and paints every draw, in list order |
| Binding.EachMoved | pictures.c:386-387 | after the loop every hand is `Moved` |
| Binding.SetStep | pictures.c:386-387 | one pass of the hand loop: hand `i` is `Moved` (its slide, loop count and timer as `set_slideshow` sets them at the shared `now`), the other hands keep their state, only hand `i`'s flash timer changes, and the cache holds one more draw |
| Binding.SetAllSlideshows | pictures.c:380-389 | every hand is moved at the same `now`: slide `NextSlide`, loop count 0 and timer `MovedTimer` when it changes stream, unchanged (timer value included) when it already showed the stream, unbound without timer for null; timers other than the hands' flash timers are unchanged; the cache is `Painted` with each moved hand's draw; the stream becomes the current one |
| Hands.Port.Master | hands.c:127 | a true port is its own master, with no hands yet |
| Hands.Port.Slave | hands.c:127 | a slave port is a rectangle of its master's screen, with the master's port number |
| Hands.Hand.constructor | hands.c:282-295 | a new hand is not mapped, withdrawn or configured, has no slideshow and no clock |
| Hands.LinkValid | hands.c:297-319 | prepending a hand and its icon keeps the list invariant |
| Hands.ClampIcon | hands.c:30-33 | the icon size is raised to the minimum, then lowered to the maximum |
| Hands.GetIconSize | hands.c:22-39 | the icon size is the icon slideshow's, clamped to the window manager's hints when there are any |
| Hands.Overlap | hands.c:61-64 | the overlap counts only for a mapped hand, and is positive exactly when both overlaps are |
| Hands.Penalty | hands.c:59-65 | a candidate's penalty is never negative |
| Hands.PenaltyZero | hands.c:59-65 | with no mapped hand overlapping, the penalty is 0 |
| Hands.Penalties | hands.c:56-65 | each candidate's penalty, as an unsigned 32-bit sum |
| Hands.ScanSelects | hands.c:52-70 | the chosen candidate is the first with the least penalty below 0x8000, otherwise index 0 |
| Hands.BestPosition | hands.c:49-73 | the chosen index is a candidate |
| Hands.CandidatePenalty | hands.c:59-65 | the inner loop sums the overlaps with 32-bit wrap-around |
| Hands.GetBestPosition | hands.c:49-73 | the position returned is that of `BestPosition` |
| Hands.BestPositionMinimal | hands.c:52-72 | the chosen penalty is minimal and strictly below all earlier ones when one is below 0x8000; otherwise index 0 |
| Hands.ChosenPort | hands.c:125-127 | the given port, or a random one of the ports |
| Hands.Centered | hands.c:137-140 | centring with C truncating division: inside the port when the hand fits, half the slack on the left rounded toward zero |
| Hands.Candidates | hands.c:143-151 | six candidates: a random axis varies as origin plus `rand % dist`; a fixed axis is the same in all |
| Hands.NewPositionSpec | hands.c:137-153 | fixed axes are centred or given; random axes lie in the port's range; with a random axis the position is one of the six candidates |
| Hands.PlaceHand | hands.c:137-153 | the position chosen is `NewPosition` |
| Hands.LinkHand | hands.c:297-319 | the hand goes to the head of `hands` and its icon to the head of `icon_hands`, each pointing at the other, and becomes the permanent hand if the port had none |
| Hands.AttachHand | hands.c:117-134 | a fresh hand and a fresh icon are linked, the hand is permanent exactly when the port had no permanent hand, both start unshown, and a beep sounds only when the list was not empty |
| Hands.NewHand | hands.c:110-322 | `new_hand` on the master of the port: the linked hand and icon, the position `NewPosition`, and the icon size fetched only when not known yet |
| Hands.SubwindowCoord | hands.c:342-350 | a subwindow coordinate is the given one, centred in the parent, or random within the slack |
| Hands.NewHandSubwindow | hands.c:325-395 | one fresh, never permanent, non-toplevel hand without an icon goes to the head of the master's `hands`; the icon list is unchanged |
| HandQueries.FirstWithWindow | hands.c:467-469 | the index of the first hand with the window, or the length |
| HandQueries.WindowToHand | hands.c:464-475 | the first hand with the window, else the first icon with it when icons are allowed, else null |
| HandQueries.ActiveFrom | hands.c:454-456 | the count of active hands from index `k` is 0 exactly when none is active, and the whole remainder exactly when all are |
| HandQueries.ActiveIn | hands.c:454-456 | the count is 0 exactly when no hand is active, and the length exactly when all are |
| HandQueries.ActiveInConcat | hands.c:453-456 | the count over two lists is the sum of their counts |
| HandQueries.PortHandsStep | hands.c:453-456 | the count over ports is the first port's count plus the rest's |
| HandQueries.ActiveHands | hands.c:449-458 | the loop counts the hands, on all ports, that are mapped or whose icon is mapped |
| HandLife.WithoutMembers | hands.c:438-440 | removing a hand keeps exactly the other hands |
| HandLife.WithoutAt | hands.c:438-440 | removing an element of a list without repetition leaves the elements before and after it, in order |
| HandLife.WithoutAbsent | hands.c:438-440 | removing a hand not in the list changes nothing |
| HandLife.WithoutUnique | hands.c:438-440 | removal keeps a list without repetition |
| HandLife.UnlinkValid | hands.c:429-440 | unlinking a non-permanent hand and its icon keeps the list invariant |
| HandLife.FlashKeys | hands.c:406-409 | the flash timers of a hand and its icon |
| HandLife.CancelFlash | hands.c:406-409 | both flash timers are unscheduled and no other |
| HandLife.HideHand | hands.c:411-427 | the permanent hand and its icon become unmapped and the hand withdrawn |
| HandLife.UnlinkHand | hands.c:429-441 | the hand leaves `hands` and its icon leaves `icon_hands`, the other elements keeping their order |
| HandLife.DestroyHand | hands.c:401-443 | the flash timers go; a permanent hand stays in the lists, hidden and withdrawn; any other hand and its icon are unlinked |
| HandLife.FlashKeysOfSpec | hands.c:514-523 | the flash timers of a list are those of its hands and their icons |
| HandLife.FlashKeysOfAppend | hands.c:514-523 | the timers of a longer list grow by those of the added hand |
| HandLife.CancelNext | hands.c:516-522 | cancelling one more hand's timers extends the cancelled set by that hand |
| HandLife.SoleIcon | hands.c:316-319 | once only the permanent hand is left, the icon list holds just its icon |
| HandLife.LinkedApart | hands.c:297-301 | distinct hands of a port have distinct icons |
| HandLife.DestroyAtCursor | hands.c:516-522 | one pass of the cursor loop: a permanent hand is kept and becomes `prev`, any other is removed, and the cursor moves on |
| HandLife.UnmapStep | hands.c:516-523 | the loop invariant over the hands visited so far is kept |
| HandLife.UnmapPort | hands.c:515-523 | the loop ends with only the permanent hand (if any) left, without slideshow, unmapped and withdrawn, and with every flash timer of the port's hands gone |
| HandLife.UnmapDone | hands.c:522 | the cursor at the end of the list means only the permanent hand is left |
| HandLife.UnmappedValid | hands.c:514-523 | the end state of a port satisfies the list invariant, and that state is what `Unmapped` describes |
| HandLife.PortsKeysPrefix | hands.c:514 | the timers of one more port are added to those cancelled so far |
| HandLife.UnmappedApart | hands.c:514 | distinct ports share no hands |
| HandLife.UnmapNext | hands.c:514-525 | one pass of the port loop leaves that port unmapped and the later ports untouched |
| HandLife.UnmapAll | hands.c:511-526 | every port ends with only its permanent hand, hidden and without slideshow, and exactly the flash timers of the former hands are gone |
| HandShow.FrameOf | hands.c:491-492 | the frame a hand shows, when it shows one |
| HandShow.CacheOf | hands.c:493 | the render cache of that frame, from its owner |
| HandShow.Cached | hands.c:496-498 | the render slot is filled only when it was empty; no other slot changes |
| HandShow.CachedHit | hands.c:496 | a filled slot is not rendered again |
| HandShow.CachedTwice | hands.c:496-498 | drawing the same slide twice renders it once |
| HandShow.DrawSlide | hands.c:481-505 | nothing for no hand or no slideshow; otherwise the slot is rendered when empty and the window background is the slot's picture; only the render slots of the cache may change |
| HandShow.HandMapRaised | hands.c:532-545 | the hand is no longer withdrawn, and the desktop property is reset exactly when it was |
| HandShow.RaiseIfWanted | hands.c:576-577 | when a mapped hand was asked for, an unmapped hand is no longer withdrawn (the X11 map request itself is left out); otherwise its withdrawal is unchanged |
| HandShow.FirstMapped | hands.c:561-563 | the index of the first mapped hand, or the length |
| HandShow.FirstMappedIn | hands.c:565-571 | the first mapped hand inside the slave rectangle, or the length |
| HandShow.LastIn | hands.c:565-568 | the last hand inside the slave rectangle, or -1 |
| HandShow.FirstMappedInAt | hands.c:569-570 | the first mapped hand in the rectangle is where the search stops |
| HandShow.FirstMappedInNone | hands.c:569-570 | without a mapped hand in the rectangle the search runs to the end |
| HandShow.LastInStep | hands.c:566-568 | one more hand moves the last hand in the rectangle to it exactly when it is inside |
| HandShow.CenteredInside | hands.c:572-573 | a centred hand that fits the slave port lies inside its rectangle |
| HandShow.FindOnMaster | hands.c:557-563 | on a master: the head when no mapped hand is wanted, else the first mapped hand or the head; an unmapped head that should be mapped is no longer withdrawn (the map request itself is X11, left out) |
| HandShow.ScanSlave | hands.c:565-571 | the slave scan stops at the first mapped hand in the rectangle when one is wanted, else keeps the last hand in it |
| HandShow.CentredHand | hands.c:572-573 | a fresh, unmapped hand centred on the slave, with a fresh icon; both go to the heads of the master's hand and icon lists, the hand is permanent exactly when the master had no permanent hand, and the master's icon size is fetched if it was still 0 |
| HandShow.CentredRaised | hands.c:572-577 | on a slave with no hand in its rectangle: the new centred hand linked as CentredHand states, no longer withdrawn when a mapped hand was asked for |
| HandShow.FindOnSlave | hands.c:564-578 | on a slave: the first mapped hand in the rectangle, else the last hand in it, and then the master's lists, permanent hand and icon size are unchanged; else a new centred hand linked as CentredHand states; no other hand's withdrawal changes |
| HandShow.FindOneHand | hands.c:553-579 | the master or slave search; when a mapped hand is wanted, an unmapped result is no longer withdrawn (the map request itself is X11, left out); no other hand's withdrawal changes, and the master's lists, permanent hand and icon size change only when a new hand is created |

## Left out

- X11 calls are not modelled: window creation, properties, hints, mapping, unmapping, destruction, resizing, bells and flushing. Their results, such as window ids, are parameters. The model keeps only the hand fields these calls sit beside, such as `mapped` and `withdrawn`.
- The once-only hints set-up of `new_hand` (hands.c:158-203) and `net_get_hostname` are not modelled. They compute window-manager properties only.
- The resizing of a hand's window in `set_slideshow` (pictures.c:359-373) is not modelled. It is X11 only.
- Rendering a frame (`Gif_XNextImage`) and `XSetWindowBackgroundPixmap` are not modelled. The rendered picture is the `rendered` parameter, and `DrawSlide` returns the background.
- `draw_clock` is not modelled. The `clock` flag is kept.
- `Gif_DeleteXFrames` is modelled only as dropping the render slots of a freed picture list.
- File I/O and the GIF decoder are not modelled. File contents are the `files` map. Decoding a compiled-in record or a file builds objects from a `SourceVal`.
- Catalog.PictureTable.LoadPicture: a compiled-in record that fails to decode (pictures.c:113-114) is not modelled. Compiled-in records always decode.
- Catalog.PictureTable.LoadSynonym: freshness of the returned stream is promised only when the target was not decoded yet.
- `Gif_DeleteStream` of a loaded file (pictures.c:281-282) is not modelled. Memory release has no observable effect here.
- Colormap reference counts (pictures.c:135, 165, 186) are not modelled. Palettes are plain values.
- `Gif_AddImage` is a sequence append. The library's own reference counting of images is left out.
- Parse.ParseSlideshow: the length test counts the characters of a `seq<char>`, while `strlen` (pictures.c:225) counts bytes up to the first NUL. Multi-byte characters and an embedded NUL are not modelled.
- Parse.ParseSlideshow: `BUFSIZ` is fixed at 8192, the value of the GNU C library. The C constant is platform-defined.
- `xmalloc` and `Gif_NewXFrames` failures are modelled as parameters: `allocOk`, and `made` for the ports whose slots were made.
- `gettimeofday`/`xwGETTIME` are not modelled. The current time is the `now` parameter. `set_slideshow` is always given a time.
- `rand()` is not modelled. Random values are non-negative parameters.
- The global `current_slideshow` set by `set_all_slideshows` is modelled as its result `current`.
- The global `ports` array and `nports` are parameters (`ports: seq<Port>`, the number of render slot rows).
- Binding.SetSlideshow: a slideshow without frames, or one whose frames are not all in one picture list, is excluded by `Ready`. `draw_slide` dereferences the frame's owner, so such a call would crash.
- Binding.SetSlideshow: a hand whose `slide` is outside its slideshow is excluded by `SlideInRange`.
- Floating-point rounding of `delay * flash_rate_ratio` and of the loop-count quotient is not modelled. Both are exact real arithmetic.
- HandQueries.ActiveHands: `Inspectable` requires every unmapped hand to have an icon. `active_hands` reads `h->icon->mapped` for an unmapped hand (hands.c:455), and `new_hand_subwindow` leaves `icon` null (hands.c:375). So an unmapped subwindow hand would make the C code dereference null. This looks like a defect in the source, found by reading only (not executed).
- Hands.NewHand: `Drawable` requires a random axis to have non-zero slack. `(rand() >> 4) % xdist` (hands.c:148-149) divides by zero when the slave port is exactly as wide, or as tall, as the hand.
- Hands.NewHandSubwindow: a random axis requires non-zero unsigned slack. `% (parent_width - width)` (hands.c:347-350) divides by zero otherwise.
- HandShow.FindOnMaster: a mapped hand may be asked for only on a master port with hands. On an empty master port, hands.c:576 dereferences a null `acceptable`.
- HandShow.FindOneHand: the same requirement as FindOnMaster, for a master port (hands.c:576).
