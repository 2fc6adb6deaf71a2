# cogsim core in Dafny

cogsim searches, frame by frame, for the joystick input that lands Mario
on the rotating cog of Tick Tock Clock. This project models three parts
of it and proves properties about them:

- **Collision surfaces.** The surface pool, the floor list and its
  insertion order, and the collision descriptor loader (`surface.c`). The
  cog's descriptor (`cogModel` in `cog.c`). Floor search and the
  air-step helpers (`mario.c`).
- **The frame controller.** The cog update (`updateTtcCog`), the input
  trial (`checkInput`), the yaw search (`computeOptimalInput`) and the
  frame outcome (`frameAdvance`).
- **The configuration language reader (`ol.c`).** Character
  normalisation, the lexer and the recursive-descent parser. Also field
  lookup with its typed variants, and the growable string buffer.

Modules follow the C files:

| module | file | models |
|---|---|---|
| `Results` | results.dfy | `Option` and `Result`, used for every error path |
| `Numeric` | numeric.dfy | `s16`/`s32`/`u64` wrap-around, truncation of reals toward zero |
| `Surfaces` | surface.dfy | `clearSurfaces`, `addSurface`, `readSurfaceData`, vertex reading, the streaming loader |
| `Descriptor` | descriptor.dfy | a structural reading of the collision descriptor: decode, encode and their round trip, and the loader proved equal to "insert every surface of the decoded model" |
| `Floors` | mario.dfy | `findTriFromListBelow`, `findFloor`, `onFloor`, `quarterStepLands`, `updateAirWithoutTurn` |
| `Cog` | cog.dfy | `cogModel`, its decoded shape, `updateTtcCog` |
| `Frame` | state.dfy | `checkInput`, `computeOptimalInput`, `frameAdvance` |
| `OlReader` | olreader.dfy | `ParseCxt`'s character reader: `nextChar` and the opening of a file |
| `OlValues` | olvalue.dfy | `OlValue`, `OlField`, `OlValueType` |
| `OlLexer` | ollexer.dfy | `parseIdent`, `parseInt`, `parseNumber`, `parseString`, `nextToken` |
| `OlNumbers` | olnumber.dfy | what `parseInt` computes, as a positional value modulo 2^64 |
| `OlParser` | olparser.dfy | `parseValue`, `parseField`, `parseBlock`, `ol_parseFile` |
| `OlCheck` | olcheck.dfy | `ol_checkField`, `ol_checkFieldInt`, `ol_checkFieldArray` |
| `OlString` | olstr.dfy | `str_new`, `str_expand`, `str_append` |
| `OlRoundTrip` | olroundtrip.dfy | a printer for parsed blocks, and the proof that parsing its output gives the block back |

Floating-point values are modelled as `real` and rounding is not modelled.
Some inputs are parameters of the model rather than computed:

- the trigonometric tables and `incTowardAsymF` (`Floors.Physics`);
- the random-number generator and `incTowardSymFP` (`Cog.CogEnv`);
- the object transform (`Vec3i -> Vec3i`).

A C error that prints a message and calls `exit` becomes an `Err` value.
Undefined behaviour also becomes an `Err`: reading past the descriptor,
a vertex offset outside the loaded vertex words, or a 101st surface.
The offset of a vertex index is `3 * index` truncated to `s16`, as in C,
so a large or negative index can wrap back into the table.

## Model

| member | source | states |
|---|---|---|
| Surfaces.ClearSurfaces | source/surface.c:19-23 | the floor list is empty, both pool counters are zero, and the pool invariant holds |
| Surfaces.AddSurface | source/surface.c:26-60 | with room in the 100-entry pools, both counters still equal the list length, and the list is the old list with the surface inserted |
| Surfaces.Insert | source/surface.c:44-60 | the list grows by one and, as a multiset, is the old list plus the new surface |
| Surfaces.InsertPos | source/surface.c:50-56 | the insertion point comes after every surface whose priority (vertex1.y) is at least the new one's, and before the first surface of lower priority |
| Surfaces.InsertKeepsSorted | source/surface.c:44-60 | insertion keeps the list ordered by non-increasing vertex1.y |
| Surfaces.InsertKeepsOrder | source/surface.c:58-59 | removing the new surface from the result gives back the old list, so no other surface moves |
| Surfaces.InsertPlacement | source/surface.c:52-56 | in a sorted list, the new surface follows every surface of greater or equal priority and precedes every surface of lower priority |
| Surfaces.InsertStable | source/surface.c:52-56 | the new surface goes after every earlier surface of the same priority |
| Surfaces.AddSurfaceKeepsValid | source/surface.c:44-60 | adding a surface preserves the pool invariant: counters agree and the list stays sorted |
| Surfaces.InsertAll | source/surface.c:165-175 | inserting a sequence adds exactly its surfaces, as a multiset |
| Surfaces.InsertAllStableSort | source/surface.c:165-175 | inserting a sequence one by one leaves the list sorted, and each priority class is the old class followed by the new surfaces in arrival order |
| Surfaces.Place | source/surface.c:154-156 | a placed vertex is truncated into s16 range |
| Surfaces.VertexWords | source/surface.c:148-157 | the vertex buffer holds three words per vertex, and vertex k is the transform of local vertex k |
| Surfaces.ReadVertices | source/surface.c:143-158 | fails exactly when the descriptor is too short, the count is negative, or the vertices overflow the 600-word buffer; on success every vertex is the placed local vertex and reading resumes after them |
| Surfaces.ReadSurfaceData | source/surface.c:63-123 | fails exactly when an index's offset, 3 * index wrapped to s16, leaves the loaded vertex words; the vertices are the three words at each wrapped offset; returns no surface exactly when the s32 normal is zero; otherwise the vertices, the normal, type 0, no owner, and lowerY/upperY as min-5/max+5 wrapped to s16 |
| Surfaces.IndexedVertexUnwrapped | source/surface.c:64-76 | when 3 * index fits in s16 the index is valid exactly when it names a loaded vertex, and it reads that vertex's three words |
| Surfaces.IndexWraps | source/surface.c:64-66 | index 21846 wraps to offset 2 and reads words 2-4, and index -21845 wraps to offset 1, both inside a table of five or more words |
| Surfaces.NormalExact | source/surface.c:80-82 | for coordinates in [-2^14, 2^14) the s32 normal equals the exact cross product |
| Surfaces.CrossOfEdges | source/surface.c:80-82 | the normal from edges v1→v2 and v2→v3 is the one from the edges out of v1 |
| Surfaces.DroppedIffCollinear | source/surface.c:83-93 | for small coordinates a triangle is dropped exactly when its three vertices are collinear |
| Surfaces.BoundsEncloseVertices | source/surface.c:85-91 | when nothing wraps, every vertex lies strictly between lowerY and upperY |
| Surfaces.LoadTriangles | source/surface.c:161-176 | a loaded group keeps the counters in step with the list and never shortens it |
| Surfaces.LoadGroups | source/surface.c:187-189 | loading groups up to the terminator keeps the counters in step and never shortens the list |
| Surfaces.LoadObjectCollisionModel | source/surface.c:179-190 | a successful load read the vertex table first, kept the counters in step and only added surfaces |
| Descriptor.Vertices | source/surface.c:148-153 | decodes n local vertices, three words each |
| Descriptor.Triples | source/surface.c:64-66 | decodes n index triples, three words each |
| Descriptor.Parse | source/surface.c:179-190 | a decoded descriptor has d[1] vertices, within the 600-word buffer |
| Descriptor.ParseEncode | source/surface.c:179-190 | decoding the encoding of a well-formed model gives the model back |
| Descriptor.ParseGroupsOfEncoding | source/surface.c:187-189 | encoded groups decode to themselves, up to the terminator |
| Descriptor.TriangleSurfaces | source/surface.c:165-175 | at most one surface per triangle, each tagged with the group's type and owning object |
| Descriptor.LoadTrianglesReadsTriples | source/surface.c:161-176 | the streaming group loader succeeds exactly when every index is valid and the pool has room; it then inserts the group's non-degenerate surfaces in order |
| Descriptor.LoadGroupsReadsGroups | source/surface.c:187-189 | the loop over groups succeeds only on a decodable group list, and then inserts every group's surfaces in order |
| Descriptor.VertexBufferIsModelTable | source/surface.c:143-158 | the vertex buffer is the encoding of the placed decoded vertices |
| Descriptor.LoadReadsModel | source/surface.c:179-190 | the loader succeeds exactly when the descriptor decodes and its model fits; the floor list is then the old list with the model's surfaces inserted |
| Descriptor.LoadKeepsPoolValid | source/surface.c:179-190 | loading keeps the pool sorted and counted, and each priority class gains the model's surfaces in descriptor order |
| Descriptor.InsertAllAppend | source/surface.c:165-175 | inserting a + b is inserting a, then b |
| Floors.FindTriFrom | source/mario.c:12-49 | returns the first surface that passes the three s32 edge tests, has a non-zero normal y and has its plane no more than 78 units above y; none exactly when no surface qualifies |
| Floors.FindTriIgnoresTail | source/mario.c:12-49 | once a surface qualifies, surfaces later in the list do not change the answer |
| Floors.FindFloor | source/mario.c:52-66 | outside the ±0x2000 square, or with no qualifying surface, the answer is no floor at height -11000; otherwise the first qualifying surface and its plane height at the truncated point |
| Floors.FindFloorIgnoresTail | source/mario.c:52-66 | appending surfaces behind a found floor does not change the result |
| Floors.LandsIff | source/mario.c:96-113 | a point has a floor exactly when it is inside the square and some surface of the list qualifies |
| Floors.EdgesSumToNormal | source/mario.c:30-32 | the three edge values sum to the y component of the triangle's normal |
| Floors.EdgeExact | source/mario.c:23-32 | for small coordinates the s32 edge value is exact |
| Floors.FoundFloorFacesUp | source/mario.c:12-49 | for small coordinates a qualifying surface has an upward normal |
| Floors.PlaneThroughVertices | source/mario.c:34-41 | the plane height at each vertex's x, z is that vertex's y |
| Floors.PlaneHeight | source/mario.c:34-41 | the point (x, height, z) lies on the plane through vertex1 with the surface's normal |
| Floors.Qualifies | source/mario.c:30-42 | a surface qualifies exactly when the point passes the three edge tests, the normal's y is non-zero, and the point 78 units above lies on the side of the plane the normal's y points to, or on it (an integer test, without the division) |
| Floors.OnFloor | source/mario.c:96-100 | Mario is on the floor exactly when his truncated position is inside the ±0x2000 square and some surface qualifies for it |
| Floors.QuarterStepLands | source/mario.c:103-113 | the quarter step lands exactly when Mario moved by a quarter of his velocity is on the floor, that is, when that truncated point is inside the square and some surface qualifies for it |
| Floors.ClampAirSpeed | source/mario.c:83-86 | speeds in [-16, 32] are kept; above 32 they lose 1; below -16 they gain 2 |
| Floors.ClampTowardBand | source/mario.c:83-86 | the clamp moves a speed toward the band and never past its edge |
| Floors.UpdateAirWithoutTurn | source/mario.c:69-93 | the air step changes only the speed and the horizontal velocity |
| Floors.AirStepReads | source/mario.c:69-93 | the step reads only speed, intended magnitude, facing yaw and intended yaw modulo 2^16 |
| Floors.AirStepDecays | source/mario.c:69-87 | with no stick input and an `approach` that moves toward 0 without overshooting, the new speed lies between 0 and the old speed: the air step never speeds Mario up or reverses him |
| Floors.AirStepAlongFacing | source/mario.c:89-93 | with no stick input and unit-length trigonometric table entries at the facing yaw, the horizontal velocity's length equals the new speed |
| Cog.CogModelWords | source/cog.c:10-24 | the s16 array is a header, 6 vertices, one group of type 0x15 with 4 triangles, and the terminator 0x41 |
| Cog.CogModelIsEncoding | source/cog.c:10-24 | the array is the encoding of a flat hexagon cut into a fan of four triangles around vertex 0 |
| Cog.CogModelDecodes | source/cog.c:10-24 | the array decodes to that hexagon, with every local y equal to 0 |
| Cog.CogIndicesValid | source/cog.c:18-22 | every index of the fan names one of the six vertices, under any transform |
| Cog.CogLoads | source/cog.c:10-24 | loading the cog into a cleared pool cannot fail and yields at most four floors |
| Cog.CogLoadOrdered | source/cog.c:10-24 | the loaded pool is valid, and its floors are the fan's surfaces ordered by priority, stably |
| Cog.CogSurfaces | source/cog.c:10-24 | the cog's floors form a valid pool of at most four surfaces, stably sorted |
| Cog.Roll | source/cog.c:36 | `randomU16() % 7` lies in 0..6 |
| Cog.UpdateTtcCog | source/cog.c:27-44 | settings 0 and 1 set the yaw speed to 200 and 400; setting 2 steps toward the target by 50 and, only when the target is reached, draws a new target 200 * q * unit with q in 0..6; any other setting keeps the speed; the s32 yaw advances by the truncated speed |
| Cog.ConstantModeStep | source/cog.c:28-43 | in a constant mode one frame fixes the speed at 200 or 400, turns the yaw by that much and draws nothing from the generator |
| Cog.ConstantRun | source/cog.c:27-44 | n frames in a constant mode are n constant-speed turns, and the generator is untouched |
| Cog.SpinTurn | source/cog.c:29-43 | n constant-speed turns leave the target alone and add n times the speed to the s32 yaw, wrapped once at the end |
| Cog.InitialModeYaw | source/cog.c:6-44 | from the initial speed setting 0, n frames turn the cog by 200 each, wrapped to s32, hold the speed at 200 and leave the target and the generator untouched |
| Cog.ConstantModeYaw | source/cog.c:27-44 | after n frames in a constant mode the yaw is the start plus n times the speed, wrapped to s32 |
| Frame.CheckInput | source/state.c:17-28 | a trial stores the stick input, with the yaw wrapped to s16, and restores the speed; position, facing and vertical velocity are untouched |
| Frame.TrialReplays | source/state.c:17-28 | the trial's answer is whether the air step from the stored input lands at the quarter step |
| Frame.CheckInputStale | source/state.c:17-28 | the outcome of a trial does not depend on the input left by an earlier trial |
| Frame.CandidatePair | source/state.c:32-34 | candidates 2n and 2n + 1 add and subtract 0x10 * n |
| Frame.CandidateOrder | source/state.c:32-35 | offsets never decrease along the search, and every multiple of 0x10 up to 0x8000 is tried in both directions |
| Frame.Trial | source/state.c:33-34 | a trial from any state with the starting body lands exactly when the candidate works |
| Frame.TryCandidate | source/state.c:33-34 | one trial answers whether candidate k works, and on failure extends the "none works below" range |
| Frame.TryPair | source/state.c:32-35 | one loop round tries +dyaw and then -dyaw and reports the first that works |
| Frame.ComputeOptimalInput | source/state.c:31-37 | succeeds with the first working candidate in search order, with none before it; fails only when none of the 4098 candidates works; Mario holds the last tried input |
| Frame.AppliedFromTried | source/state.c:50-53 | the air step after the search equals the step of the chosen trial |
| Frame.FrameAdvance | source/state.c:40-74 | the cog advances first and its floors are loaded for the new yaw; "landed" exactly when Mario already has a floor; "failed" exactly when no candidate works; otherwise Mario takes the first working candidate and the result is "not under ceiling" or, under the ceiling, "success" exactly when the speed grew |
| OlReader.NextChar | source/ol.c:129-152 | the location moves to the next line after '\n' and one column right otherwise; the new character is never '\r'; the reader stays valid and shrinks |
| OlReader.NextCharStream | source/ol.c:129-152 | a step drops exactly the first character of the normalised stream |
| OlReader.NormalizeNoCR | source/ol.c:141-149 | the normalised stream holds no '\r' |
| OlReader.NormalizeWithoutCR | source/ol.c:141-149 | a text without '\r' is unchanged by normalisation |
| OlReader.NormalizeIdempotent | source/ol.c:141-149 | normalising twice is normalising once |
| OlReader.Advance | source/ol.c:129-152 | n steps drop n normalised characters, and the location walks over them |
| OlReader.WalkLines | source/ol.c:130-136 | the line number grows by the number of '\n' characters walked over |
| OlReader.WalkColumns | source/ol.c:134-136 | on a line without '\n' the column grows by the length walked |
| OlReader.AdvanceLines | source/ol.c:129-152 | after n steps the line number counts the '\n' characters read |
| OlReader.OpenAsWritten | source/ol.c:483-488 | as written, opening starts at line 1, column 1 with the first byte raw and the rest normalised |
| OlReader.Open | source/ol.c:483-488 | corrected, opening starts at line 1, column 1 and the stream is the normalised file |
| OlReader.OpenKeepsLeadingCR | source/ol.c:487-488 | as written, a file starting "\r\n" begins with '\r'; corrected, with one '\n' |
| OlLexer.Span | source/ol.c:195-227 | the longest prefix whose characters pass the test |
| OlLexer.ScanIdent | source/ol.c:195-227 | the identifier loop reads the longest run of identifier characters and stores it lowercased, without '_' and '-' |
| OlLexer.ParseIdent | source/ol.c:195-227 | fails with "expected identifier" exactly when the stored name is empty, and with "starts with digit" exactly when it begins with a digit; otherwise an Ident token at the start location |
| OlLexer.ParseIntFrom | source/ol.c:230-247 | the accumulator stays a u64 value |
| OlLexer.ParseInt | source/ol.c:230-247 | the result is always a u64 value |
| OlLexer.ParseIntLast | source/ol.c:230-247 | no digits give 0; read from the last digit back, each digit multiplies the value of the earlier digits by the base and adds itself, both steps wrapped to u64 |
| OlLexer.ParseIntSnoc | source/ol.c:233-244 | one more digit at the end of the input is one more round of the loop |
| OlNumbers.ParseIntPositional | source/ol.c:230-247 | parseInt is the positional value of the digits in the base, modulo 2^64 |
| OlNumbers.DecimalRoundTrip | source/ol.c:230-247 | parsing the decimal numeral of a u64 value gives the value |
| OlLexer.ScanDigits | source/ol.c:274-288 | the digit loop reads the longest accepted run, drops '_' and turns a decimal into a float at the first '.' |
| OlLexer.ScanSign | source/ol.c:258-262 | the sign loop reads every '+' and '-' and yields -1 exactly for an odd count of '-' |
| OlLexer.ParseNumber | source/ol.c:250-312 | every failure is "expected number" at the start; a success is a Dec, Hex or Fp token at the start location and consumes input; a "0x" prefix gives a Hex value |
| OlLexer.ParseNumberReads | source/ol.c:250-312 | the lexer succeeds exactly when the reference reading of the text finds a number literal (signs, an optional "0x", then the longest digit run, which must start with a digit after '_' is dropped), and then stores that literal's value (the signed u64 of the digits, or the sign and text of a float) and resumes right after it |
| OlLexer.ScanString | source/ol.c:315-349 | the string loop succeeds exactly when the reference reading of a quoted literal (a backslash keeps the next character, the body ends at the first unescaped quote, and end of file or byte 0xFF means no closing quote) finds one; it then returns that text and resumes after the closing quote; a failure is the missing closing quote at the opening quote |
| OlLexer.ParseString | source/ol.c:315-349 | without a quote the result is "expected string"; any other failure is the missing closing quote; a success is a Str token at the start location holding exactly the reference literal's text, resuming after its closing quote |
| OlLexer.SkipSpace | source/ol.c:356-357 | skips exactly the leading spaces, tabs and newlines |
| OlLexer.Dispatch | source/ol.c:359-387 | EOF gives the end token and only EOF does; other tokens consume input; a value token is never a block |
| OlLexer.NextToken | source/ol.c:352-388 | the end token is returned exactly when only white space remains; every other token consumes input |
| OlParser.Eat | source/ol.c:396-401 | dropping the current token never grows the input |
| OlParser.ParseValue | source/ol.c:407-432 | a value token yields its value and the next token; a '{' yields a Block; anything else fails with "expected value" at the token; every success consumes a token |
| OlParser.ParseField | source/ol.c:435-456 | a field starts with a value; with '=' after it, that value is the key, otherwise it is a bare value |
| OlParser.ParseBlock | source/ol.c:459-474 | a block ends at '}' or end of file, and at such a token it is empty |
| OlParser.SkipSeparator | source/ol.c:468-469 | a ',' or ';' after a field is dropped and any other token is left in place |
| OlParser.ParseFrom | source/ol.c:489-496 | a reader with only white space left parses to the empty block; a '}' as the first token is an unexpected token at its location |
| OlParser.CRFirst | source/ol.c:407-432 | a reader whose first character is '\r' fails with "expected value" at its location |
| OlParser.ParseFileAsWritten | source/ol.c:477-502 | as written, a file whose first byte is '\r' fails with "expected value" at line 1, column 1 |
| OlParser.ParseFile | source/ol.c:477-502 | corrected, the parse agrees with the one as written on every file that does not start with a line break, and a file of white space is the empty block |
| OlParser.LeadingCRLF | source/ol.c:477-502 | as written, a file holding only "\r\n" fails to parse; corrected, it is the empty block |
| OlCheck.KeyedAtSpec | source/ol.c:585-587 | the list of keyed positions holds every field keyed by the name, only those, in increasing order |
| OlCheck.Lookup | source/ol.c:582-601 | a found value has a permitted kind and is the value of a field keyed by the name; every error names the field and is a missing, duplicate or invalid-value error |
| OlCheck.LookupMissing | source/ol.c:582-601 | the lookup reports "missing" exactly when no field has the name as its key |
| OlCheck.LookupFound | source/ol.c:582-601 | the lookup returns a field's value exactly when that field is the only one with the key and its kind is permitted |
| OlCheck.CheckField | source/ol.c:582-601 | the scanning loop computes the lookup: the first keyed field decides the type error, a second one is a duplicate |
| OlCheck.CheckFieldInt | source/ol.c:604-617 | passes lookup errors through; a Dec or Hex value comes back as its low 32 bits, signed |
| OlCheck.IntFieldValue | source/ol.c:604-617 | an int stored as its u64 pattern comes back unchanged |
| OlCheck.CheckFieldArray | source/ol.c:645-657 | passes lookup errors through; succeeds exactly when every element is a bare value of a permitted kind; otherwise reports the first bad element, by key or by value |
| OlString.New | source/ol.c:41-48 | a new buffer is empty in a one-byte allocation |
| OlString.Expand | source/ol.c:61-70 | the text is kept; a large enough allocation is left alone; otherwise it grows to the larger of 1.5 times its size and the request |
| OlString.Append | source/ol.c:72-77 | the text gains exactly the one byte at its end, still NUL-terminated |
| OlString.AppendSnug | source/ol.c:61-77 | appending keeps the allocation within one byte of the text or within 1.5 times it |
| OlString.AppendAllContent | source/ol.c:72-77 | appending bytes one at a time yields the old text followed by them |
| OlString.Collected | source/ol.c:41-77 | a buffer filled from new holds exactly the bytes appended |
| OlRoundTrip.LexDec | source/ol.c:250-312 | the decimal numeral of a u64 value lexes back to that value |
| OlRoundTrip.LexIdent | source/ol.c:195-227 | a canonical identifier lexes back to itself |
| OlRoundTrip.ScanEscaped | source/ol.c:330-343 | the string loop undoes the escaping of quote, backslash and byte 0xFF |
| OlRoundTrip.LexStr | source/ol.c:315-349 | an escaped, quoted string lexes back to its bytes |
| OlRoundTrip.LexOne | source/ol.c:352-388 | a printed token preceded by a space lexes back to itself |
| OlRoundTrip.LexAll | source/ol.c:352-388 | a printed token list lexes back to the same tokens followed by the end token |
| OlRoundTrip.ParseValueToks | source/ol.c:407-432 | the tokens of a value parse back to the value |
| OlRoundTrip.ParseBlockToks | source/ol.c:459-474 | the tokens of a field list, each field followed by ',', ';' or nothing, parse back to the fields the list means and stop at the closing token |
| OlRoundTrip.ConsBlockToks | source/ol.c:464-470 | one round of the block loop reads the first field and skips the separator written after it, whichever of ',', ';' or none it is |
| OlRoundTrip.ParseFromToks | source/ol.c:489-496 | a file whose tokens are a field list and the end token parses to that list |
| OlRoundTrip.RenderFile | source/ol.c:315-349 | the printed file is bytes with no '\r' |
| OlRoundTrip.RoundTrip | source/ol.c:477-502 | parsing the printed form of any printable block (decimal ints, canonical identifiers, strings with neither '\r' nor a NUL byte), written with any mix of ',', ';' and no separators, gives the block's fields back |
| OlRoundTrip.RoundTripAsWritten | source/ol.c:477-502 | the same holds for `ol_parseFile` as written, since the printed file starts with a space |
| OlReader.OpenAgree | source/ol.c:483-488 | a file that does not start with a line break is opened the same way as written and corrected |

## Left out

- Float rounding: `f32` values are reals. This affects the air step, plane heights, the ceiling distance (compared as squares instead of with `sqrtf`) and `(s32) o->yawVel`, which is modelled as truncation toward zero.
- The float-to-`s16` cast of placed vertices (`surface.c` lines 154-156) is modelled as a wrap after truncation. C leaves out-of-range casts undefined.
- Surfaces.ReadSurfaceData: an offset inside the 600-word stack buffer but past the loaded vertices reads uninitialised words in C. The model returns `BadIndex` there instead of an indeterminate vertex.
- The unit normal and `originOffset` are not stored. A surface keeps the s32 integer normal, whose direction is the same. The `mag < 0.0001` test drops exactly the zero vector, since every non-zero integer vector has length at least 1.
- `buildObjectTransform` and the matrix product are one parameter, `Vec3i -> Vec3i`. The trig tables, `incTowardAsymF`, `incTowardSymFP`, `randomU16` and `randomUnit` (in util.c, which is not part of this model) are parameters too.
- C does not fix the order of the two random calls on `cog.c` line 36. The model draws `randomU16` first.
- The internal-error branch of `frameAdvance` (`state.c` lines 55-58) is shown unreachable rather than modelled: the trial already found that the same step lands. Its `printf` is left out.
- `state.h` declares `frameAdvance` as returning `bool`, but `state.c` returns a `FrameResult`. The model follows `state.c`.
- The visualizer, `main.c`, file opening (`fopen` failure) and all console output are left out. Errors that print a message and `exit` are `Err` values; a value carries the error's kind and location, not its text.
- `UnexpectedToken` carries the token's location, which the C message does not print.
- `ol_checkFieldFloat` is left out. It reinterprets a hexadecimal value's bits as a float and converts decimals with `atof`, and both are floating-point conversions.
- `atof` is left out: an `Fp` value keeps its sign and digit text.
- `ol_valueStr`, `tokenStr`, `showChar` and `escapeChar` are left out. They only build message text.
- `ol_free`, `freeValue`, `freeField`, `str_delete`, `str_release` and the allocation wrappers are left out, because memory is not modelled.
- The `curTok` bookkeeping (setting it to NULL between tokens) is left out, because it only guards against memory errors.
- OlString.Expand: the bytes `realloc` adds are indeterminate in C and are zero here.
- OlLexer.ParseString: `char` is taken to be signed, so a byte 0xFF read inside a string compares equal to `EOF` and ends it as a missing quote.
- OlLexer.ParseString: C keeps a string value as a NUL-terminated `char *` (`str_release` drops the length), so a NUL byte inside a literal ends the string as the program later reads it. `Str` keeps every byte, including those after the NUL.
- OlRoundTrip.RoundTrip: only decimal integers, identifiers already in canonical form, and strings without '\r' or a NUL byte are printed. Hex and Fp values are not printed, and neither is a string with '\r' (which the reader would turn into '\n').
- The model reads `frameAdvance` as written: it clears the surfaces, updates the cog and then loads its surfaces, so the floors belong to the advanced cog. The rollback in `checkInput` restores only `hSpeed`; velocity and intended input keep the trial's values.

## Findings

| source | as written | input that shows it | evidently intended | confidence | as-written member | corrected member |
|---|---|---|---|---|---|---|
| source/ol.c:487-488 | `ol_parseFile` reads the first two bytes with `fgetc` directly. A line break at the very start of the file is therefore not folded the way `nextChar` folds every later one, and a leading '\r' reaches the lexer as a symbol. | a file of the two bytes 0D 0A | the first character is normalised like the rest, so the file is an empty block | not executed | OlParser.ParseFileAsWritten (with OlReader.OpenAsWritten; its contract fails every file starting with '\r', and OlParser.LeadingCRLF and OlReader.OpenKeepsLeadingCR show the two-byte file) | OlParser.ParseFile (with OlReader.Open, whose stream is the normalised file; OlRoundTrip.RoundTrip is stated for it) |
