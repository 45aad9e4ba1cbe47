# TDIS mTPC readout geometry and event-format model

A Dafny model of the core of the TDIS (Tagged Deep Inelastic Scattering) mTPC software. It covers:

- the C++ reconstruction (JANA2 plug-ins built on ACTS);
- the Python package `pytdis`;
- the stand-alone Python scripts (bokeh event displays, matplotlib pad drawing, Blender visualisation);
- the TypeScript web display.

The model covers two things, and a few small routines around them.

The first is the **readout-pad geometry**. It is an annulus from 5 cm to 15 cm cut into 21 rings of 122 pads each, with odd rings staggered by half a pad. The model also turns one digitized hit into a reconstructed space point: plane, ring, pad and drift distance go in; z, the position choice, the covariance, the cell id and the surface measurement come out.

The second is the **plain-text "Event N" format** that feeds that reconstruction. Several readers parse it with different rules. Each is modelled separately:

- the C++ event source;
- pytdis `io.py`;
- the two bokeh scripts;
- the web display's `DataLoader.ts`.

Around these sit:

- the log-level parsers;
- the `-p` parameter splitter of the `tdis` executable;
- the aligned-transform list of a detector element;
- the TGeo node searches and the readout-disc loop of the geometry service;
- the collection filter of the podio writer.

## Layout

There is one module per source file. The shared modules are:

- `Wrappers`: `Option` and `Result`.
- `Text`: whitespace, lower-casing, trimming and the whitespace tokenizer.
- `Trig`: the circle functions.

The modules follow the source's form:

- Expression-only code is written as functions and lemmas.
- Loops are methods with loop invariants. Each method is proved equal to a specification function, and the lemmas are about that function.
- Objects whose fields change are classes: the event source, the detector element, the podio processor and the Blender mesh.

**Numbers.** Numbers are exact reals and unbounded integers.

- `MathLib` carries π, cos and sin as a value. Every geometric operation requires `Valid()` of its caller: π lies within 3.14159 < π < 3.14160, and cos² + sin² = 1 at every angle.
- The number conversions are parameters: `stod`/`stoi`, Python `float()`/`int()` and JavaScript `Number`. A conversion that throws, or gives NaN, is `None`.
- Python's float `%` and `//` and `int()` truncation are written out (`FloorMod`, `FloorDiv`, `Trunc`).
- The 32-bit cell id of the C++ hit factory is reduced modulo 2³² explicitly.

**Units.** The C++ code works in ACTS millimetres (`cm = 10`). pytdis and the scripts work in centimetres. Lemmas relate the two by the factor `PadGeometry.Cm`.

## Where the copies of the layout disagree

Lemmas record these differences; the model does not correct them.

**C++ pad height and width.**
- `PadGeometryHelper.hpp` computes the pad "height" by dividing the radial span by the 122 pads per ring, not by the 21 rings (`PadGeometry.GetPadHight`).
- `getPadApproxWidth` uses that height as its radial step, while `getRingCenterRadius` uses the ring width. The C++ width is therefore smaller than the arc of one pad at the ring centre (`PadGeometry.ApproxWidthBelowCentreArc`). pytdis's width is larger than the C++ one for every ring (`PytdisGeometry.ApproxWidthExceedsCpp`).

**Pad-centre angle.**
- The clockwise-to-counter-clockwise conversion in the C++ `getPadCenter` is commented out, so the angle grows with the pad index.
- C++, the scripts and `Geometry.ts` put the centre at Δθ/2 + pad·Δθ, plus Δθ/2 on odd rings. They agree exactly, up to mm versus cm (`ScriptGeometry.AgreesWithCpp`).
- pytdis adds a full Δθ, so its "centre" is the end of the pad's angular bounds (`PytdisGeometry.CenterAngleIsBoundsEnd`, `PytdisGeometry.DiffersFromCpp`). The Blender lookup therefore maps a pytdis centre to the next pad of the ring (`BlenderCylinderTrack.PytdisCentreFindsNextPad`), while it maps the scripts' centre back to its own pad (`BlenderCylinderTrack.ScriptCentreFindsItsPad`).

**Hit z in the two bokeh scripts.**
- `2d_event_display_server.py` uses 5 cm plane spacing and subtracts the drift distance on odd planes.
- `2d_event_display.py` uses 5.5 cm spacing and always adds it.

**The event readers.** The readers apply different rules to the same text:

| reader | hit columns | a bad field | a bad line | duplicate event numbers |
|---|---|---|---|---|
| C++ event source | first 6 tokens | throws | short lines skipped | not applicable |
| pytdis | exactly 9 tokens | the whole event is dropped with a warning | the whole event is dropped with a warning | not applicable |
| bokeh server | any number | raises | not applicable | the last one wins |
| `DataLoader.ts` | any number | becomes NaN | not applicable | the last one wins |

Two more differences:

- `DataLoader.ts` never throws. It takes the event number from the second *single-space* field, so a marker with two spaces ("Event  3") has number NaN (`DataLoader.DoubleSpaceMarkerIsNaN`).
- The single-event bokeh script never looks at the marker line (`EventDisplay.EventLineUnchecked`).

## Model

| member | source | states |
|---|---|---|
| PadGeometry.GetPadHight | source/tdis/PadGeometryHelper.hpp:18-21 | the pad "height" is the radial span divided by the number of pads per ring (122, not the 21 rings), so it is positive and smaller than the ring width |
| PadGeometry.GetPadApproxWidth | source/tdis/PadGeometryHelper.hpp:23-27 | the width is the arc of one pad at radius min_radius + (ring + 0.5)·height, and exceeds the pad height for every ring ≥ 0 |
| PadGeometry.GetRingCenterRadius | source/tdis/PadGeometryHelper.hpp:29-49 | succeeds exactly for rings 0..20, else the ring error; the radius is min_radius + ring_width·(ring + 0.5) and lies strictly between min_radius and max_radius |
| PadGeometry.GetPadCenter | source/tdis/PadGeometryHelper.hpp:51-94 | succeeds iff ring and pad are both in range; the ring check comes first; the point is the polar point at the ring-centre radius and the staggered pad angle, so its squared norm is the squared ring-centre radius |
| PadGeometry.PadAngleRange | source/tdis/PadGeometryHelper.hpp:75-87 | every valid pad's centre angle lies in [Δθ/2, 2π], so the negative-angle correction never fires |
| PadGeometry.PadAngleStep | source/tdis/PadGeometryHelper.hpp:75-78 | neighbouring pads of a ring differ in angle by exactly Δθ |
| PadGeometry.PadAngleStagger | source/tdis/PadGeometryHelper.hpp:75-78 | ring r + 1 is shifted by +Δθ/2 after an even ring and by −Δθ/2 after an odd ring |
| PadGeometry.PadAnglesDistinct | source/tdis/PadGeometryHelper.hpp:75-78 | two different pads of a ring have angles that differ by more than 0 and less than a full turn |
| PadGeometry.RingCenterRadiusSpacing | source/tdis/PadGeometryHelper.hpp:47 | consecutive ring-centre radii are exactly one ring width apart |
| PadGeometry.RingCenterRadiusMonotone | source/tdis/PadGeometryHelper.hpp:47 | the ring-centre radius is strictly increasing in the ring index |
| PadGeometry.PadApproxWidthMonotone | source/tdis/PadGeometryHelper.hpp:23-27 | the approximate pad width is strictly increasing in the ring index |
| PadGeometry.ApproxWidthBelowCentreArc | source/tdis/PadGeometryHelper.hpp:20-27 | because the width uses the pad height as its radial step, it falls short of the arc Δθ·getRingCenterRadius(ring) of the same ring |
| Trig.Polar | source/tdis/PadGeometryHelper.hpp:90-91 | the point (r·cos θ, r·sin θ) has squared norm r² |
| ReconstructedHitFactory.GetResolution | source/tdis/tracking/ReconstructedHitFactory.h:15-18 | the resolution times the literal 3.4641016151 is the pixel size; for a positive size it is positive and smaller than the size |
| ReconstructedHitFactory.GetVariance | source/tdis/tracking/ReconstructedHitFactory.h:19-22 | the variance is non-negative, its product with the literal squared is w², and 12·variance lies within a factor 1.000000001 above w², the uniform-pixel variance w²/12 |
| ReconstructedHitFactory.VarianceNearUniform | source/tdis/tracking/ReconstructedHitFactory.h:16-21 | because the literal's square is just below 12, the squared resolution sits just above w²/12 |
| ReconstructedHitFactory.VarianceMonotone | source/tdis/tracking/ReconstructedHitFactory.h:15-22 | a larger positive pixel gives a strictly larger variance |
| ReconstructedHitFactory.CalcZ | source/tdis/tracking/ReconstructedHitFactory.h:66-72 | on an even plane z exceeds the plane z by zToGem; on an odd plane it falls short by zToGem |
| ReconstructedHitFactory.SelectPosition | source/tdis/tracking/ReconstructedHitFactory.h:74-84 | the position is the true position exactly when the flag is set and the truth is not NaN, else (pad_x, pad_y, calc_z) |
| ReconstructedHitFactory.XyVariance | source/tdis/tracking/ReconstructedHitFactory.h:86-88 | the x/y variance is the variance of the approximate pad width, which always wins over the pad height for ring ≥ 0 |
| ReconstructedHitFactory.CellId | source/tdis/tracking/ReconstructedHitFactory.h:91 | the cell id is 1000000·plane + 1000·ring + pad reduced to 32 unsigned bits, and equals the plain sum whenever that fits |
| ReconstructedHitFactory.CellIdDecode | source/tdis/tracking/ReconstructedHitFactory.h:91 | for a valid ring and pad and a plane below 4294, the id decodes back to plane, ring and pad |
| ReconstructedHitFactory.CellIdInjective | source/tdis/tracking/ReconstructedHitFactory.h:91 | distinct valid (plane, ring, pad) triples get distinct cell ids |
| ReconstructedHitFactory.MakeTrackerHit | source/tdis/tracking/ReconstructedHitFactory.h:53-96 | fails with getPadCenter's error exactly for an invalid ring/pad; otherwise the hit carries the cell id, time, 1 ns time error, adc as edep, the selected position and covariance (v, v, 1 cm) |
| ReconstructedHitFactory.MakeMeasurement | source/tdis/tracking/ReconstructedHitFactory.h:100-151 | a measurement exists iff globalToLocal of (x, y, plane_z) succeeds; it carries that local point, the surface id, the hit time, covariance (v, v, time error², 0), weight 1 and one link to the hit |
| ReconstructedHitFactory.FailureSticks | source/tdis/tracking/ReconstructedHitFactory.h:53-63 | once a hit aborts the loop, later hits change nothing: the result is that first error |
| ReconstructedHitFactory.ReconstructStep | source/tdis/tracking/ReconstructedHitFactory.h:53-152 | one more valid hit appends its linked tracker hit and its zero or one measurements |
| ReconstructedHitFactory.ReconstructStepFails | source/tdis/tracking/ReconstructedHitFactory.h:63 | an invalid hit after a successful prefix ends the pass with getPadCenter's error |
| ReconstructedHitFactory.ReconstructHit | source/tdis/tracking/ReconstructedHitFactory.h:64-151 | the loop body, given the pad centre, produces the linked tracker hit and the measurement exactly as specified, a failed projection giving none (the `continue`) |
| ReconstructedHitFactory.Execute | source/tdis/tracking/ReconstructedHitFactory.h:44-155 | the loop returns exactly the specified collections, or the first index error |
| ReconstructedHitFactory.ReconstructSucceedsIff | source/tdis/tracking/ReconstructedHitFactory.h:53-63 | Execute succeeds iff every hit has a valid ring and pad |
| ReconstructedHitFactory.ReconstructFirstError | source/tdis/tracking/ReconstructedHitFactory.h:53-63 | a failure carries the error of the first invalid hit, all hits before it being valid |
| ReconstructedHitFactory.OneTrackerHitPerInput | source/tdis/tracking/ReconstructedHitFactory.h:93-98 | on success there is one tracker hit per input, in input order, each built from and linked to its own input |
| ReconstructedHitFactory.MeasurementsMatchProjections | source/tdis/tracking/ReconstructedHitFactory.h:114-151 | the measurements link, with weight 1, to exactly the hits whose projection succeeds, in order; hence no more measurements than tracker hits |
| ReconstructedHitFactory.ProjectedIndicesIncreasing | source/tdis/tracking/ReconstructedHitFactory.h:144-151 | the hits that get a measurement are named by strictly increasing indices of existing tracker hits |
| TruthTrackParameterFactory.TruthFailureSticks | source/tdis/tracking/TruthTrackParameterFactory.h:45-52 | once a hit's getPadCenter throws, later hits change nothing: the result is that first error |
| TruthTrackParameterFactory.TruthStep | source/tdis/tracking/TruthTrackParameterFactory.h:45-92 | one more valid hit appends exactly its tracker hit |
| TruthTrackParameterFactory.Execute | source/tdis/tracking/TruthTrackParameterFactory.h:39-95 | the loop returns exactly the specified tracker hits, or the first index error |
| TruthTrackParameterFactory.TruthMatchesReconstructed | source/tdis/tracking/TruthTrackParameterFactory.h:52-92 | the truth factory fails exactly when, and with the error with which, ReconstructedHitFactory fails, and otherwise yields the same tracker hits (z rule, position choice, covariance, cell id) without the raw-hit links |
| TruthTrackParameterFactory.TruthOneHitPerInput | source/tdis/tracking/TruthTrackParameterFactory.h:85-92 | on success there is one tracker hit per input, in input order, each built from its own input and unlinked |
| Text.LowerChar | source/tdis/services/LogService.hpp:30-32 | `tolower` maps 'A'..'Z' 32 code points up and leaves every other character alone |
| Text.Lower | source/tdis/services/LogService.hpp:30-32 | the lower-cased string has the same length and is lower-cased character by character |
| Text.Strip | pytdis/pytdis/io.py:102 | the stripped string is no longer than the input and neither starts nor ends with whitespace |
| Text.StripIsSlice | pytdis/pytdis/io.py:102 | the strip is a slice of the input with only whitespace before and after it, so only leading and trailing whitespace is removed; with Strip's own ensures this determines it |
| Text.StripEmptyIffBlank | pytdis/pytdis/io.py:102 | the strip is empty exactly when every character of the input is whitespace |
| Text.WordLen | source/tdis/io/DigitizedDataEventSource.hpp:182-185 | the length of the leading non-whitespace run: its characters are non-whitespace and it stops at whitespace or the end |
| Text.WordLenIs | source/tdis/io/DigitizedDataEventSource.hpp:182-185 | those three properties determine the run length |
| Text.TokensAreWords | source/tdis/io/DigitizedDataEventSource.hpp:166-192 | no token is empty and no token contains whitespace |
| Text.TokensConcat | source/tdis/io/DigitizedDataEventSource.hpp:171-189 | the tokens, concatenated, give back the input with its whitespace removed |
| Text.TokensEmptyIffBlank | source/tdis/io/DigitizedDataEventSource.hpp:171-177 | a line has no tokens iff it is empty or all whitespace |
| Text.TokensSplitAtSpace | source/tdis/io/DigitizedDataEventSource.hpp:173-188 | a whitespace character separates tokens: the tokens of a + c + b are those of a followed by those of b |
| Text.TokensAtWord | source/tdis/io/DigitizedDataEventSource.hpp:180-188 | a maximal non-whitespace run is the next token |
| Text.TokensSkipSpace | source/tdis/io/DigitizedDataEventSource.hpp:173-175 | a whitespace character contributes no token |
| Text.Reals | pytdis/pytdis/io.py:46 | converting every token succeeds iff each one converts, giving one real per token in order |
| Text.ContentLines | python/2d_event_display_server.py:78-83 | the stripped non-blank lines: no more than the input, each non-empty and already stripped |
| Text.ContentLinesAppend | python/2d_event_display_server.py:78-83 | filtering distributes over concatenation |
| DigitizedDataEventSource.SplitDataString | source/tdis/io/DigitizedDataEventSource.hpp:166-192 | the character scan returns exactly the tokenizer specification `Tokens`, about which Text proves the token properties |
| DigitizedDataEventSource.SkipMarkers | source/tdis/io/DigitizedDataEventSource.hpp:207-211 | the first non-marker line from k: every line skipped is a marker |
| DigitizedDataEventSource.NextMarker | source/tdis/io/DigitizedDataEventSource.hpp:207-216 | the first marker line from k: every line before it is not a marker |
| DigitizedDataEventSource.ReadGroupCollecting | source/tdis/io/DigitizedDataEventSource.hpp:198-217 | once something is collected, the group runs to the next marker, which is consumed; at end of file the empty line of the failed read is appended and the stream fails |
| DigitizedDataEventSource.ReadGroupFromGoodStream | source/tdis/io/DigitizedDataEventSource.hpp:198-217 | from a good stream, leading markers are skipped and the group is the lines up to the next marker (consumed), or to the end of file plus the failed read's empty line |
| DigitizedDataEventSource.ReadGroupNonEmptyNoMarkers | source/tdis/io/DigitizedDataEventSource.hpp:198-217 | a group read from a good stream is non-empty and contains no marker line |
| DigitizedDataEventSource.ParseTrackHeader | source/tdis/io/DigitizedDataEventSource.hpp:220-231 | rejected iff fewer than 4 tokens; throws iff one of the first four does not convert; otherwise the four values in order, extra tokens ignored |
| DigitizedDataEventSource.ParseTrackHit | source/tdis/io/DigitizedDataEventSource.hpp:233-250 | rejected iff fewer than 6 tokens (the empty line included); throws iff one of tokens 0-5 does not convert; otherwise time, adc, ring, pad, plane, zToGem from tokens 0-5 |
| DigitizedDataEventSource.ParseHitsAreHitLines | source/tdis/io/DigitizedDataEventSource.hpp:296-303 | when nothing throws, the hits are the parses, one each and in order, of exactly the lines with at least six tokens |
| DigitizedDataEventSource.ParseHitsAbort | source/tdis/io/DigitizedDataEventSource.hpp:290-309 | an exception on one hit line aborts the whole hit loop |
| DigitizedDataEventSource.EmittedTrack | source/tdis/io/DigitizedDataEventSource.hpp:288-334 | an emitted track has the header's four values and at least one hit; its hits are the parses, in line order, of the hit lines with at least six tokens |
| DigitizedDataEventSource.HitLinesBound | source/tdis/io/DigitizedDataEventSource.hpp:296-303 | there are no more hits than hit lines |
| DigitizedDataEventSource.CheckOpenable | source/tdis/io/DigitizedDataEventSource.hpp:355-364 | confidence 1.0 iff the name ends with "txt", 0.0 iff it does not |
| DigitizedDataEventSource.EventCounter.constructor | source/tdis/io/DigitizedDataEventSource.hpp:256 | the function-static event counter of `Emit` is created once, at 1 |
| DigitizedDataEventSource.EventSource.constructor | source/tdis/io/DigitizedDataEventSource.hpp:80-132 | a new source reads from line 0 of a good stream with line index 0; it shares the program's one event counter and leaves it where earlier sources left it |
| DigitizedDataEventSource.EventSource.ReadLine | source/tdis/io/DigitizedDataEventSource.hpp:204-205 | `getline` returns the next line and advances, or fails at end of file yielding an empty line |
| DigitizedDataEventSource.EventSource.ReadNextEventLines | source/tdis/io/DigitizedDataEventSource.hpp:195-218 | the loop returns the group and leaves the stream as ReadGroup specifies |
| DigitizedDataEventSource.NumberingAcrossSources | source/tdis/io/DigitizedDataEventSource.hpp:256-257 | event numbers are program-wide: after one source has emitted an event, the first event of a second source is numbered 2 |
| DigitizedDataEventSource.EventSource.Emit | source/tdis/io/DigitizedDataEventSource.hpp:252-343 | the event gets the shared counter's value, which then grows by one; the result is FailureFinished for no lines, FailureTryAgain for a header alone, FailureFinished for a rejected header or no parsed hits, a rethrown exception, or the emitted track; the line index advances as the source does |
| LogService.ParseLogLevel | source/tdis/services/LogService.hpp:27-44 | succeeds iff the lower-cased input is one of the accepted names or level numbers, giving one of the seven levels; anything else throws naming the original input |
| LogService.LogLevelToString | source/tdis/services/LogService.hpp:47-73 | succeeds iff the level is one of the seven real levels, giving a lower-case name (which parses back, see RoundTrip); n_levels and any other value throw naming the level |
| LogService.LowerOfLowerCase | source/tdis/services/LogService.hpp:30-32 | lower-casing a string with no upper-case letter changes nothing |
| LogService.LowerIdempotent | source/tdis/services/LogService.hpp:30-32 | lower-casing twice is lower-casing once |
| LogService.RoundTrip | source/tdis/services/LogService.hpp:34-64 | parsing the printed name of a level gives the level back |
| LogService.Normalise | source/tdis/services/LogService.hpp:34-64 | a parsed level always prints, and its printed name parses back to the same level |
| LogService.CaseInsensitive | source/tdis/services/LogService.hpp:30-40 | inputs equal up to case parse alike |
| LogService.NormaliseExamples | source/tdis/services/LogService.hpp:37-60 | "WARNING" parses to warn, which prints as "warn"; "err" parses to err, which prints as "error"; "Verbose" throws |
| ActsLogHelpers.StrToActsLevel | source/tdis/tracking/ActsLogHeplers.h:9-18 | a string that is exactly some level's name selects that level; any other string falls back to INFO; the function is total |
| ActsLogHelpers.NameRoundTrip | source/tdis/tracking/ActsLogHeplers.h:11-16 | mapping a level's exact name gives the level back |
| ActsLogHelpers.NamesDistinct | source/tdis/tracking/ActsLogHeplers.h:11-16 | distinct levels have distinct names, so no two branches compete |
| ActsLogHelpers.CaseSensitive | source/tdis/tracking/ActsLogHeplers.h:11-17 | matching is case-sensitive: "debug" and "Error" fall back to INFO |
| TdisMain.FindChar | source/tdis/tdis_main.cpp:74-75 | `find('=')` gives the first index holding the character, or none when no index holds it |
| TdisMain.ProcessExtras | source/tdis/tdis_main.cpp:59-96 | the extras loop from argument i: keys are only added, never removed, and each argument adds at most one file |
| TdisMain.ParseExtras | source/tdis/tdis_main.cpp:59-96 | the loop, which also advances i inside the body when it consumes a value, returns exactly the specified parameters and files |
| TdisMain.MainExitCode | source/tdis/tdis_main.cpp:121-124 | main returns 1 iff there is no input file, and otherwise goes on |
| TdisMain.ExtrasFiles | source/tdis/tdis_main.cpp:90-93 | files are only appended: earlier files stay in front, and every added one is an argument that is not a parameter token and does not start with '-' |
| TdisMain.ExtrasKeysLowerCase | source/tdis/tdis_main.cpp:87-89 | every stored key is lower-case |
| TdisMain.Heads | source/tdis/tdis_main.cpp:59-96 | the arguments read in their own right: the first is i, each next one follows the previous one or, when that took a value, the value; none is left after the last |
| TdisMain.ExtrasFilesInOrder | source/tdis/tdis_main.cpp:90-93 | the files are the earlier ones followed, in order, by every argument read in its own right that is neither a parameter token nor a dash option; a value taken by a parameter is never a file |
| TdisMain.ExtrasKeyUntouched | source/tdis/tdis_main.cpp:67-89 | a key no parameter sets keeps its presence and value |
| TdisMain.ExtrasLastWins | source/tdis/tdis_main.cpp:67-89 | a key's value is the one set by the last parameter token naming it: the text after the first '=' as written, else the next non-dash argument, else "" |
| TdisMain.ExampleSeparateValue | source/tdis/tdis_main.cpp:78-93 | `-pfoo bar run.txt` gives {foo: bar} and the file run.txt; the value is not taken as a file |
| TdisMain.ExampleInlineValue | source/tdis/tdis_main.cpp:74-93 | `-pKey=1 -x f` gives {key: 1} and the file f; the other dash option is dropped |
| TdisMain.ExampleDuplicateKey | source/tdis/tdis_main.cpp:67-89 | `-pk=1 /Pk=2` gives {k: 2}: a later duplicate overwrites an earlier one |
| TdisMain.ExampleEmptyValue | source/tdis/tdis_main.cpp:78-85 | `-pflag -v` gives {flag: ""}, because a following dash argument is not a value |
| MtpcDetectorElement.DetectorElement.constructor | source/tdis/tracking/MtpcDetectorElement.cpp:14-34 | stores id, placement, bounds and thickness, builds the surface from placement and bounds, gives it material only when material is supplied, and starts with no aligned placements |
| MtpcDetectorElement.DetectorElement.Thickness | source/tdis/tracking/MtpcDetectorElement.cpp:40 | the thickness is the constructor's argument |
| MtpcDetectorElement.DetectorElement.NominalTransform | source/tdis/tracking/MtpcDetectorElement.cpp:54-57 | the nominal placement is the constructor's, whatever the context |
| MtpcDetectorElement.DetectorElement.Transform | source/tdis/tracking/MtpcDetectorElement.cpp:42-52 | with no aligned placement the nominal one; otherwise the placement in the context's IOV slot, which the caller must guarantee exists and is set |
| MtpcDetectorElement.DetectorElement.AddAlignedTransform | source/tdis/tracking/MtpcDetectorElement.cpp:59-67 | the size becomes max(old size, iov + 1), slot iov holds the placement, other old slots are unchanged, new slots are empty, the list never shrinks, and Transform for that IOV now returns the placement |
| ActsGeometryService.PreOrder | source/tdis/tracking/ActsGeometryService.cc:50-66 | the pre-order listing of a subtree starts with its root |
| ActsGeometryService.FirstWithVolume | source/tdis/tracking/ActsGeometryService.cc:53-54 | the first node of a sequence whose volume has the name: none iff no node has it, otherwise a member of the sequence with that name |
| ActsGeometryService.FirstWithVolumeAppend | source/tdis/tracking/ActsGeometryService.cc:58-64 | searching a concatenation searches the first part, then the second only if the first has no match |
| ActsGeometryService.FindNodeRecursive | source/tdis/tracking/ActsGeometryService.cc:50-66 | a node whose volume has the name is returned itself; a node returned has the name and lies in the subtree |
| ActsGeometryService.FindInDaughters | source/tdis/tracking/ActsGeometryService.cc:58-64 | a node found through daughters i on has the name and lies in one of their subtrees |
| ActsGeometryService.FindNodeIsFirstInPreOrder | source/tdis/tracking/ActsGeometryService.cc:50-66 | findNodeRecursive returns the first pre-order node whose volume has the name, and null iff no node of the subtree has it |
| ActsGeometryService.FindInDaughtersIsFirst | source/tdis/tracking/ActsGeometryService.cc:57-65 | the daughter loop from daughter i returns the first match in the daughters' pre-order listings |
| ActsGeometryService.WithPrefix | source/tdis/tracking/ActsGeometryService.cc:94-108 | the selected nodes are no more than the nodes searched |
| ActsGeometryService.WithPrefixExactly | source/tdis/tracking/ActsGeometryService.cc:95-100 | a node is selected iff it is in the sequence and its searched name (volume name when searchVolumes, else node name) starts with the prefix |
| ActsGeometryService.WithPrefixAppend | source/tdis/tracking/ActsGeometryService.cc:103-107 | selecting from a concatenation selects from each part, in order |
| ActsGeometryService.FindNodesWithPrefix | source/tdis/tracking/ActsGeometryService.cc:94-108 | the recursion leaves the earlier results in front, followed by the matching nodes of the subtree in pre-order |
| ActsGeometryService.PathTo | source/tdis/tracking/ActsGeometryService.cc:139-158 | a found path starts at the current node and ends at the target |
| ActsGeometryService.PathFrom | source/tdis/tracking/ActsGeometryService.cc:146-158 | a path found through daughters i.. ends at the target |
| ActsGeometryService.PathToIffInSubtree | source/tdis/tracking/ActsGeometryService.cc:124-163 | the target is found iff it lies in the subtree |
| ActsGeometryService.PathFromIffInSubtree | source/tdis/tracking/ActsGeometryService.cc:146-158 | the daughter loop finds the target iff it lies in one of the remaining daughters' subtrees |
| ActsGeometryService.AlongPathIsProduct | source/tdis/tracking/ActsGeometryService.cc:133-155 | folding the local matrices into g along the path equals g times the ordered product of those matrices |
| ActsGeometryService.FindNodeGlobalMatrix | source/tdis/tracking/ActsGeometryService.cc:124-163 | a null node is never found; otherwise found iff the target is below; on success the matrix is the input times the non-null local matrices along the path to the target (first successful branch); on failure it is restored to its input |
| ActsGeometryService.GlobalPosition | source/tdis/tracking/ActsGeometryService.cc:165-184 | a position exists iff the node is reachable from the top node; otherwise the error names the node |
| ActsGeometryService.GetGlobalPosition | source/tdis/tracking/ActsGeometryService.cc:165-184 | the search from the top node with the identity matrix returns the translation of the matrix found, or the error naming the node: the position `GlobalPosition` specifies |
| ActsGeometryService.GlobalPositionIsPathProduct | source/tdis/tracking/ActsGeometryService.cc:165-184 | the position is the translation of the product of the local matrices on the path from the top node |
| ActsGeometryService.DiscLayoutPrefix | source/tdis/tracking/ActsGeometryService.cc:337-367 | the loop over one more disc is one more loop turn |
| ActsGeometryService.Tubes | source/tdis/tracking/ActsGeometryService.cc:346-350 | only TGeoTube discs are kept |
| ActsGeometryService.DiscLayoutOneLayerPerTube | source/tdis/tracking/ActsGeometryService.cc:337-367 | one position and one zero stereo angle per tube disc; non-tube discs add nothing |
| ActsGeometryService.DiscLayoutPositions | source/tdis/tracking/ActsGeometryService.cc:339-365 | the k-th position is the z of the k-th tube's global position, times cm |
| ActsGeometryService.DiscLayoutLastTube | source/tdis/tracking/ActsGeometryService.cc:331-360 | the bounds and thickness come from the last tube (radii in cm, thickness dz·cm·0.1), or are the defaults {25, 100} and 0.1 without tubes |
| ActsGeometryService.DiscLayoutFailsOnUnreachable | source/tdis/tracking/ActsGeometryService.cc:339 | a disc whose global position throws makes the loop fail |
| ActsGeometryService.ReadoutDiscLayout | source/tdis/tracking/ActsGeometryService.cc:322-367 | collects the "mTPCReadoutDisc" nodes by node name in pre-order, then the loop returns exactly the specified layout or error |
| ActsGeometryService.DiscLoop | source/tdis/tracking/ActsGeometryService.cc:337-367 | the loop over the given discs returns exactly the layout or error `DiscLayoutOf` specifies, stopping at the first failing position |
| ActsGeometryService.DiscLoopStep | source/tdis/tracking/ActsGeometryService.cc:339-366 | after a successful turn, a non-tube leaves the layout as it was and a tube sets the bounds and thickness and appends its z in cm with stereo angle 0 |
| ActsGeometryService.FailureSticksFrom | source/tdis/tracking/ActsGeometryService.cc:339 | once a disc has failed, later discs do not change the error |
| PodioWriteProcessor.SuccessfulExactly | source/tdis/io/PodioWriteProcessor.hpp:198-227 | the kept collections are no more than the list, each kept one is in the list and was found, and every found one is kept |
| PodioWriteProcessor.FailedGrows | source/tdis/io/PodioWriteProcessor.hpp:199-224 | after the loop a collection has failed iff it had failed before or is in the list and was not found: the set only grows |
| PodioWriteProcessor.LoggedOnFirstFailureOnly | source/tdis/io/PodioWriteProcessor.hpp:210-224 | each logged collection had not failed before and failed now; no collection is logged twice; every newly failing collection is logged |
| PodioWriteProcessor.FailedCollections.constructor | source/tdis/io/PodioWriteProcessor.hpp:199 | the function-static `failed_collections` set is created once, empty |
| PodioWriteProcessor.WriteProcessor.constructor | source/tdis/io/PodioWriteProcessor.hpp:72-97 | a new processor has the default file name, the default collection list, nothing to write and the first-event flag set; it shares the program's one failed set and leaves the failures earlier processors recorded in it |
| PodioWriteProcessor.WriteProcessor.Init | source/tdis/io/PodioWriteProcessor.hpp:109-139 | the user's file name replaces the current one, "1" standing for the registered default; the user's list replaces the default list, and the output set holds exactly its names; nothing else changes |
| PodioWriteProcessor.WriteProcessor.Process | source/tdis/io/PodioWriteProcessor.hpp:142-247 | the list to write becomes its found subsequence; the shared failed set and the log grow as specified; one frame is written with the kept list; the first-event flag is cleared; an empty list stays empty |
| PytdisGeometry.GetPadCenter | pytdis/pytdis/geometry.py:51-96 | succeeds iff ring and pad are in range, the ring checked first; the point is the polar point at radius 5 + (ring + 0.5)·RING_WIDTH and angle pad·Δ + offset + Δ, so its squared norm is that radius squared |
| PytdisGeometry.GetRingRadii | pytdis/pytdis/geometry.py:99-121 | succeeds iff the ring is in range; outer − inner is RING_WIDTH and both lie within [5, 15] |
| PytdisGeometry.GetPadAngularBounds | pytdis/pytdis/geometry.py:124-156 | succeeds iff ring and pad are in range, the ring checked first; end − start is Δ |
| PytdisGeometry.GetPadApproxWidth | pytdis/pytdis/geometry.py:158-161 | the width times 122 is 2π times the ring-centre radius; no index check |
| PytdisGeometry.RingRadiiTile | pytdis/pytdis/geometry.py:118-119 | ring 0 starts at 5 cm, ring 20 ends at 15 cm, and each ring ends where the next starts |
| PytdisGeometry.CenterRadiusIsMidRing | pytdis/pytdis/geometry.py:81-119 | the centre radius is halfway between the ring's radii |
| PytdisGeometry.PadBoundsTile | pytdis/pytdis/geometry.py:153-154 | each pad ends where the next starts, and the 122 pads of a ring span exactly 2π |
| PytdisGeometry.OddRingsStaggered | pytdis/pytdis/geometry.py:84-90 | odd rings start, and are centred, Δ/2 further round than even rings |
| PytdisGeometry.CenterAngleIsBoundsEnd | pytdis/pytdis/geometry.py:153-154 | the centre angle equals the END of the pad's bounds, which is still within 0.1 rad of them |
| PytdisGeometry.DiffersFromCpp | pytdis/pytdis/geometry.py:81-90 | the ring-centre radius agrees with the C++ helper once cm become mm, but the Python angle is Δ/2 further round |
| PytdisGeometry.ApproxWidthExceedsCpp | pytdis/pytdis/geometry.py:158-161 | because Python steps outward by the ring width and C++ by its pad "height", the Python width (in mm) is larger for every ring |
| PytdisIo.Real | pytdis/pytdis/io.py:46-66 | `float()` of a token succeeds iff the number syntax accepts it |
| PytdisIo.Int | pytdis/pytdis/io.py:63-65 | `int()` of a token succeeds iff the number syntax accepts it as an integer |
| PytdisIo.ParseTrackLine | pytdis/pytdis/io.py:42-46 | a line without exactly four tokens is the error naming the event and the count; on success the four parameters are the tokens' values in order |
| PytdisIo.ParseHitLine | pytdis/pytdis/io.py:51-67 | a line without exactly nine tokens is the error naming event, hit index and count; on success columns 5..7 are integers and the rest reals, in column order |
| PytdisIo.HitsUpToFails | pytdis/pytdis/io.py:50-53 | once a hit line fails, later lines do not change the error: the first bad line wins |
| PytdisIo.HitsUpToExactly | pytdis/pytdis/io.py:50-68 | hit lines 1..n parse iff each of them does, giving one hit per line in line order |
| PytdisIo.EventDataExactly | pytdis/pytdis/io.py:38-70 | `parse_event_data` succeeds iff there is a track line with four numbers and every later line is a nine-column hit; it then returns one hit per later line, in order |
| PytdisIo.FirstBadHitNamed | pytdis/pytdis/io.py:50-53 | with a good track line, the first hit line without nine columns gives the error naming its index and column count |
| PytdisIo.EventNumOnlyInErrors | pytdis/pytdis/io.py:13-70 | the event number only appears in error messages: success and the parsed values do not depend on it |
| PytdisIo.ParseEventData | pytdis/pytdis/io.py:13-70 | the loop returns exactly the specification `EventData` |
| PytdisIo.GroupLinesAreContent | pytdis/pytdis/io.py:102-117 | every line collected into an event is non-blank and is not a marker |
| PytdisIo.PreambleIgnored | pytdis/pytdis/io.py:98-116 | lines before the first marker belong to no event |
| PytdisIo.NoMarkerNoGroups | pytdis/pytdis/io.py:98-120 | a file without markers has no events |
| PytdisIo.YieldsOf | pytdis/pytdis/io.py:104-125 | the yielded track ids are 0, 1, 2, ... in order, and there are no more yields than events |
| PytdisIo.ReadEventsSpecTrackIds | pytdis/pytdis/io.py:96-109 | the k-th yielded event has track id k |
| PytdisIo.GroupsStep | pytdis/pytdis/io.py:100-117 | how one more line changes the events read so far: a marker opens a new event, a non-blank line joins the open one, anything else changes nothing |
| PytdisIo.CloseLast | pytdis/pytdis/io.py:119-125 | the yields of all events are those of the closed ones plus the last one once it is closed |
| PytdisIo.MarkerStep | pytdis/pytdis/io.py:102-115 | a marker line keeps the loop state in step with the specification: the open event is closed and a new, empty one opened |
| PytdisIo.ContentStep | pytdis/pytdis/io.py:116-117 | a non-blank line inside an event keeps the loop state in step by joining the open event |
| PytdisIo.OtherStep | pytdis/pytdis/io.py:116 | a blank line, or any line before the first marker, leaves the loop state as it was |
| PytdisIo.ReadEvents | pytdis/pytdis/io.py:73-125 | the generator, with the skip test corrected, yields exactly `ReadEventsSpec` |
| PytdisIo.SkipAsWrittenSkipsOneFewer | pytdis/pytdis/io.py:105-120 | as written, skipping `skip >= 1` events yields what the intended test yields when skipping `skip - 1` |
| PytdisIo.ReadEventsAsWritten | pytdis/pytdis/io.py:105-120 | the generator as written equals the intended one asked to skip one event fewer |
| PytdisIo.SkipOneYieldsFirstEventAsWritten | pytdis/pytdis/io.py:105-113 | with `skip_events = 1` and a first event that parses, the code as written still yields that event, as track 0 |
| PytdisIo.FirstYieldIsFirstEvent | pytdis/pytdis/io.py:105-109 | without skipping, a first event that parses is yielded first, as track 0 |
| PytdisIo.SkippedEventsYieldNothing | pytdis/pytdis/io.py:82-105 | events before position `skip` are never yielded |
| PytdisIo.SkipDropsFirstEvents | pytdis/pytdis/io.py:82-105 | skipping `skip` events yields what reading from event `skip` on yields, renumbered from 0 |
| PytdisIo.Limit | pytdis/pytdis/io.py:159-160 | the number of events kept: all when `n_events` is None, else at most `n_events` and none when it is not positive |
| PytdisIo.MaxHits | pytdis/pytdis/io.py:171 | the maximum hit count over the kept events: no event has more, one has exactly that many, and 0 when there are none |
| PytdisIo.PaddedRow | pytdis/pytdis/io.py:174-178 | a row of width `max_hits`: the event's hits in order, then NaN cells |
| PytdisIo.PadHitLists | pytdis/pytdis/io.py:174-177 | every row of the hit block is the event's hit list written over a row of `max_hits` NaN cells, i.e. its padded row |
| PytdisIo.ReadNumpy | pytdis/pytdis/io.py:128-182 | over the generator with the skip test corrected: one track row per kept event in order, and a hit block of width `max_hits` whose rows are the NaN-padded hit lists |
| PytdisIo.TrackRecords | pytdis/pytdis/io.py:216-234 | one record per hit of the track, hit id being the hit's index, each carrying the track id and parameters |
| PytdisIo.RecordsOnePerHit | pytdis/pytdis/io.py:211-236 | the frame has one record per hit of the kept tracks, every hit appears with its track's id and parameters, and every record comes from such a hit |
| PytdisIo.ReadPandas | pytdis/pytdis/io.py:185-249 | over the generator with the skip test corrected: the records are those of the first `Limit` yielded events, track after track |
| EventDisplayServer.EventNumber | python/2d_event_display_server.py:70 | a marker without a second field is an IndexError; otherwise the number is `int()` of that field, an error iff it does not convert |
| EventDisplayServer.NextMarker | python/2d_event_display_server.py:78-83 | the first marker at or after `i` (or the end): every line skipped is not a marker |
| EventDisplayServer.HitsBetweenFails | python/2d_event_display_server.py:78-83 | a hit line that does not convert ends the reading with its error, whatever follows |
| EventDisplayServer.HitsBetweenSucceeds | python/2d_event_display_server.py:77-83 | the hits succeed iff every non-blank line between the markers converts to floats |
| EventDisplayServer.HitsBetweenRows | python/2d_event_display_server.py:77-83 | successful hits hold one row per non-blank line, in order, each the conversion of that line |
| EventDisplayServer.HitsBetweenExactly | python/2d_event_display_server.py:77-83 | the hits succeed iff every non-blank line converts, and are then the converted non-blank lines, in order |
| EventDisplayServer.LastWins | python/2d_event_display_server.py:84-87 | the dictionary holds exactly the old keys and the event numbers read; a number read twice keeps its last event; other keys are unchanged |
| EventDisplayServer.NonMarkersSkipped | python/2d_event_display_server.py:88-89 | non-marker lines between events are passed over |
| EventDisplayServer.NextMarkerAppend | python/2d_event_display_server.py:78 | a marker appended at the end does not move an existing next marker |
| EventDisplayServer.HitsFailAt | python/2d_event_display_server.py:78-83 | a non-blank line that does not convert fails the hits, naming that line |
| EventDisplayServer.RowsFail | python/2d_event_display_server.py:77-83 | when the hits loop meets a line that does not convert, the whole event's hits fail with that line's error |
| EventDisplayServer.HitsBetweenAppend | python/2d_event_display_server.py:78-83 | lines appended after an event's end do not change its hits |
| EventDisplayServer.EventsFromAppendMarker | python/2d_event_display_server.py:71-73 | appending a marker whose number converts changes none of the assignments |
| EventDisplayServer.TrailingMarkerDropped | python/2d_event_display_server.py:71-73 | a marker on the last line is dropped: the returned dictionary is unchanged |
| EventDisplayServer.EventAt | python/2d_event_display_server.py:69-87 | the event at a marker has the marker's number, the next line's parameters and the hits up to the next marker, and reading resumes there |
| EventDisplayServer.BadMarker | python/2d_event_display_server.py:70 | a marker whose number field is missing or not an integer raises |
| EventDisplayServer.MarkerOnLastLine | python/2d_event_display_server.py:71-73 | a marker on the last line ends the reading with no further assignment |
| EventDisplayServer.BadTrackParams | python/2d_event_display_server.py:74-75 | a parameter line that does not convert raises, naming that line |
| EventDisplayServer.BadHits | python/2d_event_display_server.py:78-83 | hits that fail to convert make the whole reading fail with their error |
| EventDisplayServer.ReadHits | python/2d_event_display_server.py:77-83 | the inner loop returns exactly the specification `HitsBetween` up to the next marker, and on success stops at that marker |
| EventDisplayServer.EventRead | python/2d_event_display_server.py:69-87 | reading one event makes exactly the assignment of its number, then continues from the next marker |
| EventDisplayServer.ReadTrackData | python/2d_event_display_server.py:58-90 | the while loop returns exactly the specification `TrackData` |
| EventDisplayServer.PrepareHitsData | python/2d_event_display_server.py:92-130 | one plotted hit per row, in order; z is plane × 5 cm plus the drift distance in cm on even planes and minus it on odd planes; a bad ring, pad or short row is an error |
| EventDisplayServer.PrepareBackgroundGeometry | python/2d_event_display_server.py:132-148 | 21 · 122 · 10 points: every pad centre once per plane 0..9 at z = plane × 5 cm, ring by ring, pad by pad |
| EventDisplay.RowsUpToFails | python/2d_event_display.py:56-58 | a hit line that does not convert ends the reading with its error, whatever follows |
| EventDisplay.RowsUpToExactly | python/2d_event_display.py:56-58 | the rows succeed iff every later content line converts, and are then those lines' values in order |
| EventDisplay.TrackDataExactly | python/2d_event_display.py:42-59 | reading succeeds iff there are two content lines, the second converts to exactly four numbers and every later one converts; the hits are then the later lines in order |
| EventDisplay.BlankLinesIgnored | python/2d_event_display.py:49 | blank lines anywhere change nothing |
| EventDisplay.EventLineUnchecked | python/2d_event_display.py:51 | the first content line is taken as the event line without being looked at |
| EventDisplay.RowsUpToSame | python/2d_event_display.py:56-58 | the rows depend only on the content lines from index 1 on |
| EventDisplay.ReadTrackData | python/2d_event_display.py:42-59 | the comprehension and loop return exactly the specification `TrackData` |
| EventDisplay.ReadHitRows | python/2d_event_display.py:55-58 | the hit loop returns exactly the specification `RowsUpTo` over all content lines |
| EventDisplay.PrepareHitsData | python/2d_event_display.py:61-95 | one plotted hit per row, in order; z is plane × 5.5 cm plus the drift distance in cm whatever the plane's parity |
| EventDisplay.PrepareBackgroundGeometry | python/2d_event_display.py:97-113 | 21 · 122 · 10 points: every pad centre once per plane 0..9 at z = plane × 5.5 cm, ring by ring, pad by pad |
| ScriptGeometry.GetPadCenter | tpc-tracking-display/src/utils/Geometry.ts:15-28 | succeeds iff ring and pad are in range, the ring checked first; the centre in cm lies at the ring-centre radius, at angle Δ/2 + pad·Δ plus Δ/2 on odd rings (the same in python/2d_event_display_server.py:38-56, python/2d_event_display.py:19-40 and python/draw_pads.py:25-60) |
| ScriptGeometry.AgreesWithCpp | tpc-tracking-display/src/utils/Geometry.ts:15-28 | the scripts reject the same indices as the C++ helper with the same error, and their centre in cm is the C++ centre in mm divided by ten |
| ScriptGeometry.HalfPadShortOfPytdis | python/2d_event_display_server.py:52 | the scripts' centre angle is Δ/2 short of the pytdis one, at the same radius |
| ScriptGeometry.Trunc | python/2d_event_display_server.py:107-109 | Python `int()` of a float truncates toward zero |
| ScriptGeometry.HitPoint | python/2d_event_display_server.py:103-122 | a row with fewer than six columns is an error; otherwise time and amplitude are columns 0 and 1, the plane is column 4 truncated, x/y is the centre of the truncated ring and pad, and z is plane × spacing plus the drift distance in cm |
| ScriptGeometry.HitPointsFail | python/2d_event_display_server.py:103-112 | the first row that cannot be plotted raises, whatever follows |
| ScriptGeometry.HitPointsExactly | python/2d_event_display_server.py:103-130 | plotting succeeds iff every row does, giving one plotted hit per row in row order |
| ScriptGeometry.PrepareHitsData | python/2d_event_display_server.py:92-130 | the loop returns exactly the specification `HitPoints` |
| ScriptGeometry.PlanePoints | python/2d_event_display_server.py:143-147 | one pad centre repeated for planes 0..n-1, at z = plane × spacing |
| ScriptGeometry.RingPointsLength | python/2d_event_display_server.py:140-147 | the points of `rings` rings of 122 pads number rings · 1220 |
| ScriptGeometry.Background | python/2d_event_display_server.py:132-148 | the background has 21 · 122 · 10 = 25620 points |
| ScriptGeometry.PadPointAt | python/2d_event_display_server.py:141-147 | within a ring, point pad · 10 + plane is that pad's centre at that plane |
| ScriptGeometry.RingPointAt | python/2d_event_display_server.py:140-147 | within the points of several rings, ring `ring`'s points follow those of the rings before it |
| ScriptGeometry.BackgroundPointAt | python/2d_event_display_server.py:140-147 | point PointIndex(ring, pad, plane) of the background is that pad's centre at z = plane × spacing |
| ScriptGeometry.PointIndexOnto | python/2d_event_display_server.py:140-143 | every index below 25620 is the point of one valid ring, pad and plane |
| ScriptGeometry.CentreColumnsAt | python/2d_event_display_server.py:145-146 | the x and y columns at a pad's point hold that pad's centre |
| ScriptGeometry.HeightColumnAt | python/2d_event_display_server.py:144-147 | the z column at a plane's point holds plane × spacing |
| ScriptGeometry.BackgroundCentres | python/2d_event_display_server.py:140-148 | at every ring, pad and plane, the x and y columns hold that pad's centre |
| ScriptGeometry.BackgroundHeights | python/2d_event_display_server.py:140-148 | at every ring, pad and plane, the z column holds plane × spacing |
| ScriptGeometry.BackgroundIsPadCloud | python/2d_event_display_server.py:132-148 | the background columns are the full pad cloud |
| ScriptGeometry.AppendPlanes | python/2d_event_display_server.py:143-147 | the plane loop appends one point per plane for the pad centre, in plane order, to all three columns |
| ScriptGeometry.AppendRing | python/2d_event_display_server.py:141-147 | the pad loop appends the points of the ring's pads, pad by pad |
| ScriptGeometry.AppendRings | python/2d_event_display_server.py:140-147 | the ring loop appends the points of the rings, ring by ring |
| ScriptGeometry.PrepareBackgroundGeometry | python/2d_event_display_server.py:132-148 | the three lists are the x, y and z columns of the background cloud |
| DrawPads.WedgeOf | python/draw_pads.py:63-83 | the wedge of a pad reaches from 5 + r·w to 5 + (r+1)·w cm and spans one pad's angle in degrees |
| DrawPads.RingsContiguous | python/draw_pads.py:13-16 | each ring ends where the next starts, and the rings span 5 cm to 15 cm |
| DrawPads.PadsContiguous | python/draw_pads.py:75-76 | each pad ends where the next starts, and a ring's 122 pads span exactly 360 degrees |
| DrawPads.OddRingsStaggered | python/draw_pads.py:68-71 | odd rings start half a pad further round than even rings |
| DrawPads.RadiansLinear | python/draw_pads.py:19-22 | one pad in degrees is one pad in radians, and the conversion is linear |
| DrawPads.CentreIsWedgeMiddle | python/draw_pads.py:45-76 | the `get_pad_center` centre lies in the middle of the drawn wedge, radially and angularly |
| DrawPads.WedgeIsPytdisBounds | python/draw_pads.py:68-76 | the drawn wedge is pytdis's angular bounds of the pad, in degrees |
| DrawPads.WedgeStartInRadians | python/draw_pads.py:68-75 | the wedge's start angle in radians is pad·Δ plus the stagger offset |
| DrawPads.DrawRing | python/draw_pads.py:74-88 | the pad loop appends the ring's 122 wedges in pad order, keeping the earlier ones |
| DrawPads.DrawWedges | python/draw_pads.py:62-88 | one wedge per pad, 21 · 122 in all, the wedge of ring r and pad p at position r · 122 + p |
| BlenderCylinderTrack.FloorMod | python/blender_cylinder_track.py:355-359 | Python's float `%` with a positive modulus: the remainder lies in [0, m) and differs from the dividend by a whole number of moduli |
| BlenderCylinderTrack.Clamp | python/blender_cylinder_track.py:352-362 | `max(min(v, hi), 0)` lies in [0, hi] and leaves values already in range alone |
| BlenderCylinderTrack.FloorModShift | python/blender_cylinder_track.py:355-359 | adding whole turns to the angle does not change its remainder |
| BlenderCylinderTrack.PadSpanOf | python/blender_cylinder_track.py:45-53 | a pad's quad is one ring width deep and one pad angle wide |
| BlenderCylinderTrack.PadSpansTile | python/blender_cylinder_track.py:41-53 | the quads tile the annulus: rings follow one another from the inner to the outer radius, pads follow one another, and a ring's pads cover one full turn |
| BlenderCylinderTrack.DefaultSpansArePytdis | python/blender_cylinder_track.py:20-53 | with the default arguments the quads are exactly pytdis's ring radii and pad angular bounds |
| BlenderCylinderTrack.Corners | python/blender_cylinder_track.py:55-65 | the four corners lie on the plane x = x_loc at the inner radius at both angles and the outer radius at both angles, in that order |
| BlenderCylinderTrack.FaceIndexInjective | python/blender_cylinder_track.py:66-69 | distinct pads get distinct face indices |
| BlenderCylinderTrack.FaceIndexOnto | python/blender_cylinder_track.py:44-69 | every face index is the index of some pad |
| BlenderCylinderTrack.RingVertsAt | python/blender_cylinder_track.py:55-66 | pad p's corners are the p-th run of four vertices of its ring |
| BlenderCylinderTrack.BuildRing | python/blender_cylinder_track.py:51-70 | the pad loop appends one quad and one map entry per pad of the ring, in order, and changes no other entry |
| BlenderCylinderTrack.CreateReadoutPlaneWithMap | python/blender_cylinder_track.py:19-96 | one quad per pad, ring by ring; the map's keys are exactly the plane's (ring, pad) pairs, each mapped to its face, whose four vertices are the pad's corners |
| BlenderCylinderTrack.RingAppended | python/blender_cylinder_track.py:44-70 | the ring loop's facts carry over one more ring |
| BlenderCylinderTrack.HighlightOf | python/blender_cylinder_track.py:102-110 | a key not in the map finds no face; an index within the polygon list is highlighted as itself |
| BlenderCylinderTrack.PlaneMesh.constructor | python/blender_cylinder_track.py:80-83 | a new plane uses the grey slot on every face |
| BlenderCylinderTrack.PlaneMesh.HighlightPad | python/blender_cylinder_track.py:98-110 | switches exactly the pad's face to the highlight slot, or changes nothing when the key has no face or the index is out of range |
| BlenderCylinderTrack.HighlightOnBuiltPlane | python/blender_cylinder_track.py:98-110 | on a plane built by the builder, a valid pad highlights its own face and any other key finds none |
| BlenderCylinderTrack.CrossingAt | python/blender_cylinder_track.py:243-265 | a pair yields a point iff its squared radii lie strictly on opposite sides of R², differ by at least 10⁻¹², and the interpolated x lies in [x_min, x_max]; the point then lies on the segment |
| BlenderCylinderTrack.FractionInside | python/blender_cylinder_track.py:256-258 | for a crossing pair the interpolation fraction lies strictly between 0 and 1, so the range test on it never rejects |
| BlenderCylinderTrack.FirstCrossingIsFirst | python/blender_cylinder_track.py:242-266 | the result is the crossing of the earliest pair that has one, and nothing when no pair does |
| BlenderCylinderTrack.FindTrajectoryCylinderIntersection | python/blender_cylinder_track.py:236-266 | the loop returns exactly the first crossing |
| BlenderCylinderTrack.FindRingPadForRPhi | python/blender_cylinder_track.py:345-364 | the result is always a valid (ring, pad) |
| BlenderCylinderTrack.RingOfRadius | python/blender_cylinder_track.py:350-351 | a radius inside a ring's band is looked up as that ring |
| BlenderCylinderTrack.PadOfAngle | python/blender_cylinder_track.py:354-361 | an angle inside a pad's span, any number of turns round, is looked up as that pad |
| BlenderCylinderTrack.ShiftedRemainder | python/blender_cylinder_track.py:355-359 | reducing, taking off the offset and reducing again is reducing once after the offset |
| BlenderCylinderTrack.LookupInvertsSpans | python/blender_cylinder_track.py:345-364 | a point inside a valid pad's quad (any number of turns round) is looked up as that pad: the lookup inverts the builder |
| BlenderCylinderTrack.RadiiOutsideClamp | python/blender_cylinder_track.py:352 | radii inside the hole go to the first ring and radii beyond the plane to the last |
| BlenderCylinderTrack.ScriptCentreFindsItsPad | python/blender_cylinder_track.py:345-364 | the scripts' pad centre is looked up as its own pad |
| BlenderCylinderTrack.PytdisCentreFindsNextPad | python/blender_cylinder_track.py:345-364 | pytdis's pad centre, on the end of its pad, is looked up as the next pad of the ring (pad 0 after the last) |
| DataLoader.Split | tpc-tracking-display/src/utils/DataLoader.ts:23-29 | `split` with a one-character separator gives at least one piece, and no piece holds the separator |
| DataLoader.JoinSplit | tpc-tracking-display/src/utils/DataLoader.ts:23 | joining the pieces with the separator gives back the text |
| DataLoader.SplitWithoutSeparator | tpc-tracking-display/src/utils/DataLoader.ts:23 | a text without the separator is a single piece |
| DataLoader.SplitAtSeparator | tpc-tracking-display/src/utils/DataLoader.ts:23-29 | the first separator ends the first piece |
| DataLoader.SplitJoin | tpc-tracking-display/src/utils/DataLoader.ts:23 | pieces without the separator are recovered by splitting their join |
| DataLoader.DigitLen | tpc-tracking-display/src/utils/DataLoader.ts:29 | the leading digit run: every character in it is a digit and it stops at a non-digit or the end |
| DataLoader.SkipSpaces | tpc-tracking-display/src/utils/DataLoader.ts:29 | what is left starts with a non-whitespace character or is empty |
| DataLoader.ParseInt | tpc-tracking-display/src/utils/DataLoader.ts:29 | `parseInt(s, 10)` is NaN iff there is no digit after the leading whitespace and an optional sign |
| DataLoader.NatDigits | tpc-tracking-display/src/utils/DataLoader.ts:29 | a natural number is written with at least one decimal digit |
| DataLoader.NatDigitsValue | tpc-tracking-display/src/utils/DataLoader.ts:29 | the digits of a natural number have that number as their value |
| DataLoader.DigitLenOfDigits | tpc-tracking-display/src/utils/DataLoader.ts:29 | the digit run of digits followed by a non-digit is exactly those digits |
| DataLoader.ParseIntSigned | tpc-tracking-display/src/utils/DataLoader.ts:29 | an optional minus sign, then a digit run of value v followed by a non-digit, parses as -v or v |
| DataLoader.ParseIntOfDecimal | tpc-tracking-display/src/utils/DataLoader.ts:29 | `parseInt` reads back any whole number written in decimal, ignoring a tail that does not start with a digit |
| DataLoader.DecimalStringChars | tpc-tracking-display/src/utils/DataLoader.ts:29 | a number written in decimal has no whitespace and starts with a digit or a minus sign |
| DataLoader.EventNumberOf | tpc-tracking-display/src/utils/DataLoader.ts:29 | a marker without a space has no second field and so no number (parseInt of undefined is NaN); MarkerField gives the number otherwise |
| DataLoader.MarkerNumber | tpc-tracking-display/src/utils/DataLoader.ts:27-29 | a marker "Event n", with one space and an optional non-digit, whitespace-free tail, has event number n |
| DataLoader.DecimalFieldHasNoSpace | tpc-tracking-display/src/utils/DataLoader.ts:29 | the decimal field and its tail hold no whitespace |
| DataLoader.MarkerField | tpc-tracking-display/src/utils/DataLoader.ts:27-29 | after a single space following the marker word, a whitespace-free field is what `parseInt` reads |
| DataLoader.DoubleSpaceMarkerIsNaN | tpc-tracking-display/src/utils/DataLoader.ts:29 | with two spaces after "Event" the event number is NaN whatever number follows |
| DataLoader.TrackParams | tpc-tracking-display/src/utils/DataLoader.ts:32 | a blank parameter line gives the single number 0; otherwise one number (or NaN) per whitespace-separated field |
| DataLoader.HitsOfSnoc | tpc-tracking-display/src/utils/DataLoader.ts:35-41 | one more line adds its converted row when it is not blank after trimming, and nothing otherwise |
| DataLoader.HitsAreContentLines | tpc-tracking-display/src/utils/DataLoader.ts:35-41 | the hit rows of a run of lines are the rows of its trimmed non-blank lines |
| DataLoader.HitRowsExactly | tpc-tracking-display/src/utils/DataLoader.ts:38-39 | the rows of trimmed lines are one per line, in order, each that line's fields converted by `Number` |
| DataLoader.LastWins | tpc-tracking-display/src/utils/DataLoader.ts:43 | the object holds exactly the keys written; a key written twice keeps its last event; other keys are unchanged |
| DataLoader.NonMarkersSkipped | tpc-tracking-display/src/utils/DataLoader.ts:44-46 | lines that are not markers are passed over |
| DataLoader.PreambleIgnored | tpc-tracking-display/src/utils/DataLoader.ts:26-46 | everything before the first marker is ignored |
| DataLoader.EventAt | tpc-tracking-display/src/utils/DataLoader.ts:28-43 | the event at a marker has the marker's number as key, the next line's parameters (even when that line is a marker) and the hits up to the next marker, where reading resumes |
| DataLoader.HitsBetweenAppend | tpc-tracking-display/src/utils/DataLoader.ts:35-42 | lines appended after an event's end do not change its hits |
| DataLoader.EventsFromAppendMarker | tpc-tracking-display/src/utils/DataLoader.ts:30-31 | appending a marker after a non-marker last line changes none of the events |
| DataLoader.TrailingMarkerIgnored | tpc-tracking-display/src/utils/DataLoader.ts:30-31 | a marker on the last line opens no event: the object is unchanged |
| DataLoader.MarkerOnLastLine | tpc-tracking-display/src/utils/DataLoader.ts:30-31 | a marker on the last line ends the reading |
| DataLoader.EventRead | tpc-tracking-display/src/utils/DataLoader.ts:28-43 | reading one event writes exactly its entry, then continues from the next marker |
| DataLoader.ReadHits | tpc-tracking-display/src/utils/DataLoader.ts:34-42 | the hits loop stops at the next marker and collects exactly the rows of the non-blank lines before it |
| DataLoader.ParseEvents | tpc-tracking-display/src/utils/DataLoader.ts:22-49 | the while loop returns exactly the specification `ParsedEvents` |

## Left out

**Input and output**
- Opening and reading files: the C++ `std::ifstream` and its state flags, pytdis `open()`, `readlines()`, `loadEventData`/`loadRawData` with `fetch` and `File.text()`.
  - A file is the sequence of its lines.
  - The C++ `getline` behaviour at end of file is modelled: one empty line, then failure.
- Printing:
  - the warnings pytdis prints for dropped events;
  - the messages of `highlight_pad`;
  - spdlog output, `PrintStreamError` and the printing helpers.
- Not modelled: the podio error log, except which collections are logged.
- Not modelled: the podio `ROOTWriter`, `Frame` contents and JANA parameter registration, beyond the default file name. The frame writer is the list of collection lists it receives.

**Floating point**
- Rounding, NaN propagation and overflow are not modelled. Arithmetic is exact on reals.
- `roundTo2DecimalPlaces` is not modelled.
- cos, sin and π are constrained only by `Trig.MathLib.Valid()`.
- JavaScript numbers beyond 2⁵³ are exact in the model.
- Unicode whitespace: trimming and tokenizing use the six ASCII whitespace characters. Python's `strip`/`split` and JavaScript's `trim` and `/\s+/` also strip other Unicode spaces.

**Foreign code**
- `globalToLocal` and `surface()` are parameter functions.
- TGeo nodes are a value tree with an `id` for object identity, and matrices are an abstract type with a multiplication.
- The rest of `ActsGeometryService::Init` is not modelled: the TGeo import, the ACTS detector building, the OBJ export and `exit(0)`.
- Not modelled: the JANA event, except as a function from collection name to what `GetCollectionBase` does.
- Concurrency: the mutexes of the log service and of the podio writer `Process`.
- The `LogService` class and its logger registry. Only the level helpers `ParseLogLevel` and `LogLevelToString` are modelled.

**Visualisation and simulation**
- bokeh figures, sliders and callbacks, matplotlib drawing (the wedge bounds are modelled, not the patches).
- Blender meshes, materials, modifiers and curves: `create_readout_plane_with_map` is modelled as its vertex, face and face-map lists, and `highlight_pad` as the faces' material slots.
- `simulate_proton_trajectory` (floating-point Euler integration), `create_curve_from_points`, `make_curve_neon`, `create_cylindrical_surface_x`, `create_cylindrical_patch` and the script's `main`.
- The React components of the web display.

**pandas, numpy and the command-line tools**
- `get_track_summary`, the DataFrame multi-index and its dtype conversion.
  - `PytdisIo.ReadPandas` returns the records in the order the frame is built from.
  - `PytdisIo.ReadNumpy` returns the track rows and the NaN-padded hit block as sequences.
- The click CLIs of pytdis and the Python `__main__` entry points.

**Weaker contracts**
- BlenderCylinderTrack.FindRingPadForRPhi: requires some rings, some pads and inner ≠ outer radius. With zero rings, zero pads or equal radii the script raises ZeroDivisionError, which the model does not cover.
- BlenderCylinderTrack.CreateReadoutPlaneWithMap: requires positive ring and pad counts. With zero rings or pads the script raises ZeroDivisionError; with negative counts it builds an empty plane. Neither case is modelled.
- PytdisIo.ReadNumpy: reads through the corrected generator (see Findings). For `skip_events >= 1`, `read_tdis_data_numpy` as written gets the yields of `ReadEventsAsWritten`, which also hold event `skip_events - 1` when it parses.
- PytdisIo.ReadPandas: reads through the corrected generator (see Findings). For `skip_events >= 1`, `read_tdis_data_pandas` as written gets the yields of `ReadEventsAsWritten`, which also hold event `skip_events - 1` when it parses.
- MtpcDetectorElement.DetectorElement.Transform: requires the context's slot to exist and be set once any aligned placement exists. The C++ code indexes without a bounds check, which is undefined behaviour otherwise.

## Findings

| source | as written | input that shows it | evidently intended | confidence | as-written member | corrected member |
|---|---|---|---|---|---|---|
| pytdis/pytdis/io.py:105-113 | the skip test compares `event_count`, which already counts the event being closed, so `skip_events = k` skips only k − 1 events | a file with two events that parse, read with `skip_events = 1`: the first event is still yielded, as track 0; `read_tdis_data_numpy` and `read_tdis_data_pandas` inherit this, and their models `PytdisIo.ReadNumpy` and `PytdisIo.ReadPandas` read through the corrected generator | `skip_events = k` drops the first k events, as the docstring says | not executed | PytdisIo.SkipOneYieldsFirstEventAsWritten | PytdisIo.SkipDropsFirstEvents |
