# R2D2 topology colouring, modelled in Dafny

The R2D2 PyMOL plugin colours a loaded molecule by the partial charges in a
GROMACS topology. `process(name, primary, fallback)` opens the topology file
from the primary directory or else the fallback (force-field) directory. It
scans the file line by line, honouring `#ifdef`/`#endif` skipping, `#include`
directives and `[ section ]` headers. For every atom line inside an
`[ atoms ]` section it issues one `cmd.color(colour, "resn R and name A")`
call, where the colour comes from `charge_to_color`. After the scan it
processes every include depth-first, relative to the including file's
directory.

This project models that core as pure functions:

- `strings.dfy` (module `Strings`) holds the text helpers:
  - Python's `str.split()` on whitespace;
  - `str.split('/')` with its inverse `'/'.join`;
  - the plugin's `listToString`.
- `charge_color.dfy` (module `ChargeColor`) holds `charge_to_color`:
  - exact real arithmetic;
  - Python's round-half-to-even `round`, written out;
  - the lower-case hex encoding, with its decoding as partner.
- `scanner.dfy` (module `Scanner`) holds the line scanner. It is a left fold
  of one `Step` per whitespace-split line, with state `(should_skip,
  is_atoms_section)`. A declarative reference reading says which lines are
  live, which are inside an atoms section, and which emit an include or a
  record. The fold is proved equal to that reading.
- `topology.dfy` (module `Topology`) holds the `process` driver:
  - the file system is a map from path to lines;
  - `cmd.color` becomes an emitted trace of `ColorCall`s;
  - `float()` on the charge field is a parameter that may reject the field;
  - recursion is bounded by fuel.

  Each opened file is summarised, and the traversal (`Visit`) works on those
  summaries. A summary is the file's own colour calls and whether `float()`
  raised, plus its include paths. Reading and scanning a file is pure, so
  this equals the source's interleaving.

Three behaviours of the code are worth stating plainly, because the model
keeps them exactly:

- The hydrogen rename (`R2D2-plugin/__init__.py:122-123`) moves the LAST
  character of a four-character `H…` name to the front (`H12A` becomes
  `AH12`).
- A section header (`R2D2-plugin/__init__.py:116-119`) is any line of at
  least three tokens with `[` first and `]` third. Tokens after the third
  are ignored.
- `float()` on the charge field (`R2D2-plugin/__init__.py:127`) raises
  `ValueError` on text that is not a number. Only `IOError` is caught, at
  lines 90 and 94, so the error ends the whole traversal, including every
  enclosing `process` call. The calls already made stay in the trace, and
  the status is `Raised`.

## Model

| member | source | states |
|---|---|---|
| Strings.Split | R2D2-plugin/__init__.py:103 | every word `str.split()` yields is non-empty and free of whitespace |
| Strings.SplitKeepsContent | R2D2-plugin/__init__.py:103 | the words, glued together, are exactly the non-whitespace characters of the line, in order |
| Strings.SplitUnwords | R2D2-plugin/__init__.py:103 | splitting words joined by single spaces returns those words |
| Strings.SplitOn | R2D2-plugin/__init__.py:139 | `str.split('/')` yields at least one part and no part contains the separator |
| Strings.JoinSplit | R2D2-plugin/__init__.py:139 | joining the parts of a split with the separator restores the text |
| Strings.SplitJoin | R2D2-plugin/__init__.py:139 | splitting a join of separator-free parts restores the parts (split and join are inverse) |
| Strings.ListToString | R2D2-plugin/__init__.py:21-31 | `listToString([])` is empty and a non-empty list gives text ending in '/' |
| Strings.ListToStringJoin | R2D2-plugin/__init__.py:21-31 | `listToString(init) + last` is the '/'-join of `init + [last]` |
| Strings.PathReassembly | R2D2-plugin/__init__.py:139-145 | the directory prefix `listToString` builds from all parts but the last, followed by the last part, is the include path that was split |
| ChargeColor.RoundHalfEven | R2D2-plugin/__init__.py:53 | the result is within one half of the argument and even on exact ties, as Python's `round` |
| ChargeColor.RoundingIsUnique | R2D2-plugin/__init__.py:53 | any integer within one half and even on ties is the RoundHalfEven result |
| ChargeColor.RoundMonotone | R2D2-plugin/__init__.py:53 | rounding is monotone |
| ChargeColor.FadingChannel | R2D2-plugin/__init__.py:53-55 | the fading channel stays in 0..255, is 255 at zero, and is 0 exactly above 509/2040 |
| ChargeColor.GreenChannel | R2D2-plugin/__init__.py:57-60 | green stays in 0..255, is 255 exactly up to 171/680, and is 0 at magnitude 1 |
| ChargeColor.Magnitude | R2D2-plugin/__init__.py:49-65 | the clamped magnitude lies in [0, 1], is 0 only for charge 0, and equals abs(charge) inside [-1, 1] |
| ChargeColor.Channels | R2D2-plugin/__init__.py:45-74 | every channel stays in 0..255 (so `bytearray` never fails); a positive charge keeps red 255, a negative one keeps blue 255, zero is white |
| ChargeColor.ByteHex | R2D2-plugin/__init__.py:76 | one byte is two lower-case hex digits, high nibble first, whose value is the byte |
| ChargeColor.EncodeColor | R2D2-plugin/__init__.py:76 | the encoding is "0x" plus six lower-case hex digits that decode to the channels |
| ChargeColor.EncodeDecodeColor | R2D2-plugin/__init__.py:76 | every well-formed colour string is the encoding of what it decodes to |
| ChargeColor.ChargeToColor | R2D2-plugin/__init__.py:33-78 | the result is "0x" and six lower-case hex digits that denote exactly the computed channels |
| ChargeColor.AnchorColors | R2D2-plugin/__init__.py:36-41 | 0, 1, 0.25, -0.25 and -1 give white, red, yellow, cyan and blue exactly |
| ChargeColor.ClampedBeyondUnit | R2D2-plugin/__init__.py:49-64 | any charge above 1 colours as 1 and any charge below -1 as -1 |
| ChargeColor.MirrorSymmetry | R2D2-plugin/__init__.py:49-74 | negating the charge swaps red and blue and keeps green |
| ChargeColor.GreenSaturation | R2D2-plugin/__init__.py:57-74 | green is 255 exactly when the charge lies within ±171/680 |
| ChargeColor.BlueVanishes | R2D2-plugin/__init__.py:53-55 | for a positive charge blue is 0 exactly above 509/2040 |
| ChargeColor.RampMonotone | R2D2-plugin/__init__.py:49-74 | moving away from zero on either side never raises any channel |
| Scanner.StripQuotes | R2D2-plugin/__init__.py:113-114 | the include target is token 1 without its first and last character |
| Scanner.RenameHydrogen | R2D2-plugin/__init__.py:122-123 | a four-character `H` name becomes a rotation of itself: last character first, the rest in order, same length and characters; other names are unchanged |
| Scanner.HydrogenExample | R2D2-plugin/__init__.py:122-123 | `H12A` becomes `AH12`; `CA` and `HA` are unchanged |
| Scanner.RenameKeepsToken | R2D2-plugin/__init__.py:122-126 | a renamed word is still a word |
| Scanner.Selection | R2D2-plugin/__init__.py:125-129 | the selection splits into exactly `resn`, residue, `and`, `name`, atom name |
| Scanner.RecordOf | R2D2-plugin/__init__.py:121-127 | the record takes the residue from field 3 and the charge text from field 6; the atom name is field 4 after the hydrogen rename, so it keeps its length and characters; fields that are words give a record of words |
| Scanner.AtomLineIsNoDirective | R2D2-plugin/__init__.py:105-121 | an atom line (first token all digits) is never a directive or a header |
| Scanner.TokenizeLines | R2D2-plugin/__init__.py:102-103 | each line's word list is its `str.split()`: one list per line, each entry a word, holding exactly the line's non-whitespace characters |
| Scanner.ScanFile | R2D2-plugin/__init__.py:102-131 | the includes and records of a file are exactly those the declarative reading gives for its split lines, and every record is made of words |
| Scanner.Step | R2D2-plugin/__init__.py:102-131 | `#ifdef` sets skip, `#endif` clears it; a skipped line changes no include, record or section; headers emit no record; each line adds at most one include or record |
| Scanner.ScanLines | R2D2-plugin/__init__.py:102-131 | the outputs never exceed the number of lines, and lines of words give records of words |
| Scanner.SetAfterMeans | R2D2-plugin/__init__.py:105-119 | a flag is set after n lines exactly when some setting line has no clearing line after it |
| Scanner.FlagsMatchReference | R2D2-plugin/__init__.py:105-119 | after each prefix, the skip flag is "an unclosed `#ifdef` exists" and the atoms flag is "the latest live header is `[ atoms ]`" |
| Scanner.IncludesMatchReference | R2D2-plugin/__init__.py:110-114 | the collected includes are exactly those of the live `#include` lines, in file order |
| Scanner.RecordsMatchReference | R2D2-plugin/__init__.py:110-127 | the collected records are exactly those of the live atom lines inside an atoms section, in file order |
| Scanner.ScanMatchesReference | R2D2-plugin/__init__.py:102-131 | flags, includes and records of the fold all agree with the declarative reading after every prefix |
| Scanner.ScanOfWholeFile | R2D2-plugin/__init__.py:102-131 | the same for the whole file |
| Scanner.EndifLineIsLive | R2D2-plugin/__init__.py:105-111 | an `#endif` line is processed normally, however many `#ifdef` lines preceded it |
| Scanner.IfdefSkipsUntilEndif | R2D2-plugin/__init__.py:105-111 | from an `#ifdef` up to the next `#endif`, lines are skipped and emit nothing (the flag does not nest) |
| Scanner.HeaderEmitsNoRecord | R2D2-plugin/__init__.py:116-121 | a header line never emits a record |
| Scanner.RecordFollowsAtomsHeader | R2D2-plugin/__init__.py:116-121 | every emitted record has a live `[ atoms ]` header above it, with no live header of another section in between |
| Scanner.FlatIfdefExample | R2D2-plugin/__init__.py:105-127 | after `#ifdef A`, `#ifdef B`, `#endif`, the next atom line is already emitted, with its hydrogen name rotated |
| Topology.Open | R2D2-plugin/__init__.py:86-96 | the primary path is opened if present, else the fallback, else nothing |
| Topology.CallFor | R2D2-plugin/__init__.py:129-131 | the call's colour string denotes exactly the channels of the charge, and its selection splits into `resn`, residue, `and`, `name`, atom name |
| Topology.ParseCharges | R2D2-plugin/__init__.py:127 | charges are parsed in order; a stop happens exactly at the first field `float()` rejects |
| Topology.Colorize | R2D2-plugin/__init__.py:121-131 | the i-th call colours the i-th record with the colour of its parsed charge; calls stop at the first rejected charge field |
| Topology.ColorizeWellFormed | R2D2-plugin/__init__.py:125-131 | every call carries a colour string and a five-word `resn … and name …` selection |
| Topology.SplitIncludePath | R2D2-plugin/__init__.py:139-145 | directory prefix plus leaf is the include path; the leaf has no '/', and the prefix is empty or ends in '/' |
| Topology.Summarize | R2D2-plugin/__init__.py:98-131 | a file's own calls are the colour calls for the records its scan finds, its includes are the include paths the scan collects, and every call is well formed |
| Topology.SummarizeAll | R2D2-plugin/__init__.py:86-131 | every path that opens gets exactly the summary of its own lines, no other path gets one, and all summaries are well formed |
| Topology.Chain | R2D2-plugin/__init__.py:137-149 | the include loop finishes with 0 unless a child aborted, and aborts exactly when some child did |
| Topology.Visit | R2D2-plugin/__init__.py:80-149 | -1 exactly when the file is in neither directory, with no calls; otherwise 0 or an abort |
| Topology.IncludeRuns | R2D2-plugin/__init__.py:137-147 | one child run per include |
| Topology.VisitIncludes | R2D2-plugin/__init__.py:137-149 | the loop returns 0 or aborts; no includes means no calls |
| Topology.Process | R2D2-plugin/__init__.py:80-149 | `process` returns -1 exactly when the file is missing from both directories, and then issues no call; otherwise 0 unless aborted; every call is well formed |
| Topology.VisitOwnCallsFirst | R2D2-plugin/__init__.py:98-147 | an opened file's own calls come first in the trace |
| Topology.OpenResolution | R2D2-plugin/__init__.py:86-96 | the trace starts with the own calls of the primary copy if present, else of the fallback copy |
| Topology.ChildPaths | R2D2-plugin/__init__.py:139-147 | a child is looked up at both base directories followed by the include path itself |
| Topology.ChainAppend | R2D2-plugin/__init__.py:137-147 | chaining two runs of children is chaining the first and, unless it aborted, then the second |
| Topology.ChainOfSilentRuns | R2D2-plugin/__init__.py:137-149 | children that all return without calls leave a loop that returns 0 with no calls |
| Topology.IncludesFirstThenRest | R2D2-plugin/__init__.py:137-147 | the first include runs first; the rest run only if it did not abort |
| Topology.IncludesInOrder | R2D2-plugin/__init__.py:137-147 | processing includes `a + b` is processing `a`, then, unless that aborted, `b` |
| Topology.MissingIncludesSkipped | R2D2-plugin/__init__.py:137-149 | includes missing from both directories add no calls, and the loop still returns 0 |
| Topology.VisitWithMissingChildren | R2D2-plugin/__init__.py:137-149 | a visited file whose charges parse and whose includes are all missing returns 0 with just its own calls |
| Topology.SummaryOfParsedFile | R2D2-plugin/__init__.py:121-131 | a file whose charge fields all parse does not raise |
| Topology.MissingChildrenStillSucceed | R2D2-plugin/__init__.py:80-149 | `process` returns 0 with exactly the file's own calls even when every include is missing, because child results are ignored |
| Topology.ProcessFuelMonotone | R2D2-plugin/__init__.py:80-149 | once a run finishes within a fuel bound, any larger bound gives the same run |

## Left out

- The PyMOL GUI and session code (`__init_plugin__`, `run_plugin_gui`, the
  dialog, the browse callbacks, the `ff_location.txt` persistence) is UI and
  file plumbing, not part of the colouring logic.
- The renderer calls `cmd.load` and `cmd.ramp_new` are foreign. `cmd.color`
  appears only as the emitted `ColorCall` trace.
- `print` logging has no effect on the result.
- Real file handles, `open`/`close` and the splitting of a file into lines
  are replaced by a map from path to the file's lines. An `IOError` is a
  path missing from the map.
- `float()` on the charge field is the parameter `parse`. It yields an exact
  real or rejects the field. Python also accepts `nan`, `inf` and `-inf`:
  `nan` colours white, `inf` clamps to 1 and `-inf` clamps to -1. These are reached only through the
  parameter and are not modelled as values.
- ChargeColor.Channels: the arithmetic is exact. Python evaluates
  the two channel formulas of lines 53 and 57 in binary floating point, so
  a charge within floating-point error of a rounding tie can round the other
  way in the source.
- Topology.Process: recursion is bounded by `fuel`. On an include cycle that
  revisits the same path, the source recurses until Python's
  `RecursionError`, and the model then reports `OutOfFuel`. A cycle through
  a growing prefix (`sub/../sub/..`) may instead reach a path too long to
  open. The resulting `OSError` is caught at lines 90 and 94 like a missing
  file, and the model does not represent that path-length limit. `OutOfFuel` aborts the traversal the way an exception does.
  The model makes no claim that the source terminates.
- Unicode semantics of `str.isdigit` and `str.split` are left out. Digits
  are ASCII `0`-`9`, and whitespace is the ASCII set Python splits on
  (space, `\t`, `\n`, `\v`, `\f`, `\r`, and `\x1c`-`\x1f`).
