/** The recursive driver `process` (`__init__.py` lines 80-149): open a
    topology file from the primary directory or else the fallback directory,
    scan it, colour every atom record, then process every include depth-first,
    in file order, relative to the including file's directory.

    The file system is a map from path to the file's lines; the renderer's
    `cmd.color` is an emitted trace of colour calls; `float()` on the charge
    field is a parameter; recursion is bounded by fuel. */
module Topology {
  import opened Strings
  import opened ChargeColor
  import opened Scanner

  datatype Option<T> = None | Some(value: T)

  /** Paths to the lines of every file that opens successfully. */
  type FileSystem = map<string, seq<string>>

  /** Python's `float()` on the charge field: None where it raises ValueError. */
  type ChargeParser = string -> Option<real>

  /** One `cmd.color(color, selection)` call. */
  datatype ColorCall = ColorCall(color: string, selection: string)

  /** How a call of `process` ends: it returns -1 or 0; a ValueError from
      `float()` propagates out of every enclosing call (Raised); or the fuel
      bound of the model ran out (OutOfFuel). */
  datatype Status = Returned(code: int) | Raised | OutOfFuel

  datatype Run = Run(trace: seq<ColorCall>, status: Status)

  predicate Aborted(s: Status) { s.Raised? || s.OutOfFuel? }

  /** What every emitted call looks like: a colour string and a selection
      `resn <residue> and name <atom>` of single words. */
  predicate WellFormedCall(c: ColorCall) {
    && IsColorString(c.color)
    && var words := Split(c.selection);
       |words| == 5 && words[0] == "resn" && words[2] == "and" && words[3] == "name"
  }

  /** The open-with-fallback of lines 86-96: the primary path if it opens,
      else the fallback path if that opens, else nothing. */
  function Open<T>(files: map<string, T>, primaryPath: string, fallbackPath: string): (r: Option<T>)
    ensures r.Some? <==> primaryPath in files || fallbackPath in files
    ensures primaryPath in files ==> r == Some(files[primaryPath])
    ensures primaryPath !in files && fallbackPath in files ==> r == Some(files[fallbackPath])
  {
    if primaryPath in files then Some(files[primaryPath])
    else if fallbackPath in files then Some(files[fallbackPath])
    else None
  }

  /** The call of line 131 for a record whose charge parsed: a colour string
      denoting the charge's channels, and a selection of exactly the words
      `resn`, residue, `and`, `name`, atom name. */
  function CallFor(rec: AtomRecord, charge: real): (call: ColorCall)
    ensures IsColorString(call.color) && DecodeColor(call.color) == Channels(charge)
    ensures RecordOfWords(rec) ==> Split(call.selection) == ["resn", rec.residue, "and", "name", rec.name]
  {
    ColorCall(ChargeToColor(charge), Selection(rec))
  }

  /** `call` is the colour call for `rec`: its charge field parses and the
      call colours the record's selection with that charge's colour. */
  predicate IsCallFor(call: ColorCall, rec: AtomRecord, parse: ChargeParser) {
    parse(rec.chargeToken).Some? && call == CallFor(rec, parse(rec.chargeToken).value)
  }

  datatype Colored = Colored(calls: seq<ColorCall>, raised: bool)

  datatype Parsed = Parsed(charges: seq<real>, raised: bool)

  /** `float()` applied to the charge fields in order (line 127), stopping at
      the first field it rejects. */
  function ParseCharges(atoms: seq<AtomRecord>, parse: ChargeParser): (p: Parsed)
    ensures |p.charges| <= |atoms|
    ensures forall i :: 0 <= i < |p.charges| ==> parse(atoms[i].chargeToken) == Some(p.charges[i])
    ensures !p.raised ==> |p.charges| == |atoms|
    ensures p.raised ==> |p.charges| < |atoms| && parse(atoms[|p.charges|].chargeToken).None?
  {
    if |atoms| == 0 then Parsed([], false)
    else
      match parse(atoms[0].chargeToken)
      case None => Parsed([], true)
      case Some(q) =>
        var rest := ParseCharges(atoms[1..], parse);
        Parsed([q] + rest.charges, rest.raised)
  }

  /** The colour calls of lines 127-131 for the records of one file, in order.
      The calls stop at the first charge field `float()` rejects, and that
      record itself yields no call. */
  function Colorize(atoms: seq<AtomRecord>, parse: ChargeParser): (c: Colored)
    ensures |c.calls| <= |atoms|
    ensures forall i :: 0 <= i < |c.calls| ==> IsCallFor(c.calls[i], atoms[i], parse)
    ensures !c.raised ==> |c.calls| == |atoms|
    ensures c.raised ==> |c.calls| < |atoms| && parse(atoms[|c.calls|].chargeToken).None?
  {
    var p := ParseCharges(atoms, parse);
    Colored(seq(|p.charges|, i requires 0 <= i < |p.charges| => CallFor(atoms[i], p.charges[i])), p.raised)
  }

  lemma ColorizeWellFormed(atoms: seq<AtomRecord>, parse: ChargeParser)
    requires forall i :: 0 <= i < |atoms| ==> RecordOfWords(atoms[i])
    ensures forall i :: 0 <= i < |Colorize(atoms, parse).calls| ==>
              WellFormedCall(Colorize(atoms, parse).calls[i])
  {
    var calls := Colorize(atoms, parse).calls;
    forall i | 0 <= i < |calls|
      ensures WellFormedCall(calls[i])
    {
      var rec := atoms[i];
      assert calls[i] == CallFor(rec, parse(rec.chargeToken).value);
      CallIsWellFormed(rec, parse(rec.chargeToken).value);
    }
  }

  lemma CallIsWellFormed(rec: AtomRecord, charge: real)
    requires RecordOfWords(rec)
    ensures WellFormedCall(CallFor(rec, charge))
  {
    var words := Split(CallFor(rec, charge).selection);
    assert words == ["resn", rec.residue, "and", "name", rec.name];
  }

  datatype IncludeTarget = IncludeTarget(dir: string, leaf: string)

  /** Lines 139-145: split the include path on '/', the last part is the file
      name and `listToString` of the others is the directory prefix. The leaf
      is what follows the last '/', the directory everything up to it. */
  function SplitIncludePath(path: string): (t: IncludeTarget)
    ensures t.dir + t.leaf == path
    ensures '/' !in t.leaf
    ensures t.dir == "" || t.dir[|t.dir| - 1] == '/'
    ensures '/' in path <==> t.dir != ""
  {
    var parts := SplitOn(path, '/');
    PathReassembly(path);
    var t := IncludeTarget(ListToString(parts[..|parts| - 1]), parts[|parts| - 1]);
    assert t.dir != "" ==> t.dir[|t.dir| - 1] in path by {
      if t.dir != "" {
        assert path[|t.dir| - 1] == t.dir[|t.dir| - 1];
      }
    }
    t
  }

  /** Every call in the run is well formed. */
  predicate WellFormedRun(r: Run) {
    forall i :: 0 <= i < |r.trace| ==> WellFormedCall(r.trace[i])
  }

  // ---------------------------------------------------------------------------
  // What one file contributes by itself

  /** The part of `process` that depends only on the opened file's lines:
      its own colour calls (and whether `float()` raised on one of them) and
      the include paths it names. */
  datatype FileSummary = FileSummary(own: Colored, includes: seq<string>)

  predicate WellFormedSummary(s: FileSummary) {
    forall i :: 0 <= i < |s.own.calls| ==> WellFormedCall(s.own.calls[i])
  }

  /** Scan the lines (lines 98-131) and colour the records found. */
  function Summarize(lines: seq<string>, parse: ChargeParser): (s: FileSummary)
    ensures s.own == Colorize(ScanFile(lines).atoms, parse)
    ensures s.includes == ScanFile(lines).includes
    ensures WellFormedSummary(s)
  {
    var scan := ScanFile(lines);
    ColorizeWellFormed(scan.atoms, parse);
    FileSummary(Colorize(scan.atoms, parse), scan.includes)
  }

  /** Summaries of the files that open, by path. */
  type Summaries = map<string, FileSummary>

  predicate AllWellFormed(files: Summaries) {
    forall p :: p in files ==> WellFormedSummary(files[p])
  }

  /** Every file is read and scanned the same way whenever it is opened, so
      the traversal may equally look its summary up by path. */
  function SummarizeAll(fs: FileSystem, parse: ChargeParser): (files: Summaries)
    ensures files.Keys == fs.Keys
    ensures forall p :: p in fs ==> files[p] == Summarize(fs[p], parse)
    ensures AllWellFormed(files)
  {
    map p | p in fs :: Summarize(fs[p], parse)
  }

  // ---------------------------------------------------------------------------
  // The traversal

  /** The runs in order, stopping at the first one that aborted: the traces
      of the runs up to and including that one, followed by its status, or
      status 0 when none aborted. Return codes of finished runs are ignored. */
  function Chain(runs: seq<Run>): (r: Run)
    ensures r.status == Returned(0) || Aborted(r.status)
    ensures !Aborted(r.status) <==> forall i :: 0 <= i < |runs| ==> !Aborted(runs[i].status)
    ensures (forall i :: 0 <= i < |runs| ==> WellFormedRun(runs[i])) ==> WellFormedRun(r)
  {
    if |runs| == 0 then Run([], Returned(0))
    else if Aborted(runs[0].status) then runs[0]
    else
      var rest := Chain(runs[1..]);
      assert forall i :: 1 <= i < |runs| ==> runs[i] == runs[1..][i - 1];
      Run(runs[0].trace + rest.trace, rest.status)
  }

  /** `process(name, primary, fallback)` over the file summaries, with at
      most `fuel` nested levels. A file missing from both directories gives
      -1 and no calls; otherwise the file's own calls come first, then the
      runs of its includes, and the result is 0 whatever the includes
      returned. */
  function Visit(files: Summaries, name: string, primary: string, fallback: string, fuel: nat): (r: Run)
    ensures fuel == 0 ==> r.status == OutOfFuel
    ensures r.status == Returned(-1) <==>
              fuel > 0 && primary + name !in files && fallback + name !in files
    ensures r.status.Returned? ==> r.status.code == 0 || r.status.code == -1
    ensures r.status == Returned(-1) ==> r.trace == []
    ensures AllWellFormed(files) ==> WellFormedRun(r)
    decreases fuel, 0
  {
    if fuel == 0 then Run([], OutOfFuel)
    else
      match Open(files, primary + name, fallback + name)
      case None => Run([], Returned(-1))
      case Some(file) =>
        if file.own.raised then Run(file.own.calls, Raised)
        else
          var kids := VisitIncludes(files, file.includes, primary, fallback, fuel - 1);
          Run(file.own.calls + kids.trace, kids.status)
  }

  /** The child run of every include, each resolved against both base
      directories extended by the include's directory prefix. */
  function IncludeRuns(files: Summaries, includes: seq<string>, primary: string, fallback: string,
                       fuel: nat): (runs: seq<Run>)
    ensures |runs| == |includes|
    ensures AllWellFormed(files) ==> forall i :: 0 <= i < |runs| ==> WellFormedRun(runs[i])
    decreases fuel, 1
  {
    seq(|includes|, i requires 0 <= i < |includes| =>
      var t := SplitIncludePath(includes[i]);
      Visit(files, t.leaf, primary + t.dir, fallback + t.dir, fuel))
  }

  /** The loop of lines 137-147: each include in order; a child's return code
      is ignored and an exception in a child ends the loop. */
  function VisitIncludes(files: Summaries, includes: seq<string>, primary: string, fallback: string,
                         fuel: nat): (r: Run)
    ensures r.status == Returned(0) || Aborted(r.status)
    ensures |includes| == 0 ==> r == Run([], Returned(0))
    ensures AllWellFormed(files) ==> WellFormedRun(r)
    decreases fuel, 2
  {
    Chain(IncludeRuns(files, includes, primary, fallback, fuel))
  }

  /** The plugin's `process(name, primary, fallback)` on a file system. */
  function Process(fs: FileSystem, name: string, primary: string, fallback: string,
                   parse: ChargeParser, fuel: nat): (r: Run)
    ensures fuel == 0 ==> r.status == OutOfFuel
    ensures r.status == Returned(-1) <==>
              fuel > 0 && primary + name !in fs && fallback + name !in fs
    ensures r.status.Returned? ==> r.status.code == 0 || r.status.code == -1
    ensures r.status == Returned(-1) ==> r.trace == []
    ensures WellFormedRun(r)
  {
    Visit(SummarizeAll(fs, parse), name, primary, fallback, fuel)
  }

  // ---------------------------------------------------------------------------
  // Properties of the traversal

  /** The calls a file contributes itself, before any include. */
  function OwnCalls(lines: seq<string>, parse: ChargeParser): seq<ColorCall> {
    Summarize(lines, parse).own.calls
  }

  /** The opened file's own calls open the trace of a visit. */
  lemma VisitOwnCallsFirst(files: Summaries, name: string, primary: string, fallback: string, fuel: nat)
    requires fuel > 0
    requires primary + name in files || fallback + name in files
    ensures var path := if primary + name in files then primary + name else fallback + name;
            files[path].own.calls <= Visit(files, name, primary, fallback, fuel).trace
  {
  }

  /** Open resolution: the primary copy is used when it exists, the fallback
      copy otherwise, and in both cases the file's own calls open the trace. */
  lemma OpenResolution(fs: FileSystem, name: string, primary: string, fallback: string,
                       parse: ChargeParser, fuel: nat)
    requires fuel > 0
    requires primary + name in fs || fallback + name in fs
    ensures var lines := if primary + name in fs then fs[primary + name] else fs[fallback + name];
            OwnCalls(lines, parse) <= Process(fs, name, primary, fallback, parse, fuel).trace
  {
    var files := SummarizeAll(fs, parse);
    var path := if primary + name in fs then primary + name else fallback + name;
    assert files[path] == Summarize(fs[path], parse);
    VisitOwnCallsFirst(files, name, primary, fallback, fuel);
  }

  /** The child for include path `inc` is looked up at `primary + inc` and
      `fallback + inc`: the directory prefix and leaf name reassemble the
      include path. Nested includes therefore resolve relative to the
      including file's own directory. */
  lemma ChildPaths(primary: string, fallback: string, inc: string)
    ensures var t := SplitIncludePath(inc);
            (primary + t.dir) + t.leaf == primary + inc &&
            (fallback + t.dir) + t.leaf == fallback + inc
  {
    var t := SplitIncludePath(inc);
    assert (primary + t.dir) + t.leaf == primary + (t.dir + t.leaf);
    assert (fallback + t.dir) + t.leaf == fallback + (t.dir + t.leaf);
  }

  /** Chaining `rs + ss` is chaining `rs` and, unless that aborted, then
      chaining `ss`. */
  lemma {:induction false} ChainAppend(rs: seq<Run>, ss: seq<Run>)
    ensures Chain(rs + ss) ==
              if Aborted(Chain(rs).status) then Chain(rs)
              else Run(Chain(rs).trace + Chain(ss).trace, Chain(ss).status)
  {
    if |rs| == 0 {
      assert rs + ss == ss;
      assert [] + Chain(ss).trace == Chain(ss).trace;
    } else if !Aborted(rs[0].status) {
      ChainAppend(rs[1..], ss);
      assert (rs + ss)[1..] == rs[1..] + ss;
      var t0, ta, tb := rs[0].trace, Chain(rs[1..]).trace, Chain(ss).trace;
      assert t0 + (ta + tb) == (t0 + ta) + tb;
    }
  }

  /** A chain whose runs all finish without calls finishes with 0 and no calls. */
  lemma {:induction false} ChainOfSilentRuns(runs: seq<Run>)
    requires forall i :: 0 <= i < |runs| ==> runs[i].trace == [] && !Aborted(runs[i].status)
    ensures Chain(runs) == Run([], Returned(0))
  {
    if |runs| > 0 {
      ChainOfSilentRuns(runs[1..]);
    }
  }

  /** Two chains agree when every run of the first that did not run out of
      fuel is also the corresponding run of the second, and the first chain
      itself did not run out of fuel. */
  lemma {:induction false} ChainAgree(rs: seq<Run>, ss: seq<Run>)
    requires |rs| == |ss|
    requires forall i :: 0 <= i < |rs| && rs[i].status != OutOfFuel ==> ss[i] == rs[i]
    requires Chain(rs).status != OutOfFuel
    ensures Chain(ss) == Chain(rs)
  {
    if |rs| > 0 {
      assert rs[0].status != OutOfFuel;
      if !Aborted(rs[0].status) {
        ChainAgree(rs[1..], ss[1..]);
      }
    }
  }

  /** The first include runs first; the rest run only if it did not abort. */
  lemma IncludesFirstThenRest(files: Summaries, includes: seq<string>, primary: string, fallback: string,
                              fuel: nat)
    requires |includes| > 0
    ensures var t := SplitIncludePath(includes[0]);
            var child := Visit(files, t.leaf, primary + t.dir, fallback + t.dir, fuel);
            var rest := VisitIncludes(files, includes[1..], primary, fallback, fuel);
            VisitIncludes(files, includes, primary, fallback, fuel) ==
              if Aborted(child.status) then child else Run(child.trace + rest.trace, rest.status)
  {
    var runs := IncludeRuns(files, includes, primary, fallback, fuel);
    assert runs[1..] == IncludeRuns(files, includes[1..], primary, fallback, fuel);
  }

  lemma IncludeRunsAppend(files: Summaries, a: seq<string>, b: seq<string>,
                          primary: string, fallback: string, fuel: nat)
    ensures IncludeRuns(files, a + b, primary, fallback, fuel) ==
            IncludeRuns(files, a, primary, fallback, fuel) + IncludeRuns(files, b, primary, fallback, fuel)
  {
    var rab := IncludeRuns(files, a + b, primary, fallback, fuel);
    var ra := IncludeRuns(files, a, primary, fallback, fuel);
    var rb := IncludeRuns(files, b, primary, fallback, fuel);
    forall i | 0 <= i < |rab|
      ensures rab[i] == (ra + rb)[i]
    {
      if i < |a| {
        assert (a + b)[i] == a[i];
      } else {
        assert (a + b)[i] == b[i - |a|];
      }
    }
  }

  /** Includes run in file order: processing `a + b` is processing `a` and,
      unless that aborted, then processing `b`. */
  lemma IncludesInOrder(files: Summaries, a: seq<string>, b: seq<string>,
                        primary: string, fallback: string, fuel: nat)
    ensures var ra := VisitIncludes(files, a, primary, fallback, fuel);
            var rb := VisitIncludes(files, b, primary, fallback, fuel);
            VisitIncludes(files, a + b, primary, fallback, fuel) ==
              if Aborted(ra.status) then ra else Run(ra.trace + rb.trace, rb.status)
  {
    IncludeRunsAppend(files, a, b, primary, fallback, fuel);
    ChainAppend(IncludeRuns(files, a, primary, fallback, fuel), IncludeRuns(files, b, primary, fallback, fuel));
  }

  /** Include path `inc` opens in neither base directory. */
  predicate MissingEverywhere<T>(files: map<string, T>, inc: string, primary: string, fallback: string) {
    primary + inc !in files && fallback + inc !in files
  }

  /** Includes that exist in neither directory are skipped silently: no
      calls, and the loop still finishes normally. */
  lemma MissingIncludesSkipped(files: Summaries, includes: seq<string>,
                               primary: string, fallback: string, fuel: nat)
    requires fuel > 0
    requires forall i :: 0 <= i < |includes| ==> MissingEverywhere(files, includes[i], primary, fallback)
    ensures VisitIncludes(files, includes, primary, fallback, fuel) == Run([], Returned(0))
  {
    var runs := IncludeRuns(files, includes, primary, fallback, fuel);
    forall i | 0 <= i < |runs|
      ensures runs[i].trace == [] && !Aborted(runs[i].status)
    {
      ChildPaths(primary, fallback, includes[i]);
    }
    ChainOfSilentRuns(runs);
  }

  /** A visited file whose own calls did not raise and whose includes are
      all missing finishes with 0 and just its own calls. */
  lemma VisitWithMissingChildren(files: Summaries, name: string, primary: string, fallback: string, fuel: nat)
    requires fuel > 1
    requires primary + name in files || fallback + name in files
    requires var file := if primary + name in files then files[primary + name] else files[fallback + name];
             !file.own.raised &&
             forall i :: 0 <= i < |file.includes| ==> MissingEverywhere(files, file.includes[i], primary, fallback)
    ensures var file := if primary + name in files then files[primary + name] else files[fallback + name];
            Visit(files, name, primary, fallback, fuel) == Run(file.own.calls, Returned(0))
  {
    var file := if primary + name in files then files[primary + name] else files[fallback + name];
    MissingIncludesSkipped(files, file.includes, primary, fallback, fuel - 1);
    assert file.own.calls + [] == file.own.calls;
  }

  /** A file whose charge fields all parse does not raise, and its summary
      keeps the include paths the scan found. */
  lemma SummaryOfParsedFile(lines: seq<string>, parse: ChargeParser)
    requires forall i :: 0 <= i < |ScanFile(lines).atoms| ==> parse(ScanFile(lines).atoms[i].chargeToken).Some?
    ensures !Summarize(lines, parse).own.raised
    ensures Summarize(lines, parse).includes == ScanFile(lines).includes
  {
  }

  /** A file that opens and whose charges all parse returns 0 and emits just
      its own calls even when every include is missing: child results are
      ignored. */
  lemma MissingChildrenStillSucceed(fs: FileSystem, name: string, primary: string, fallback: string,
                                    parse: ChargeParser, fuel: nat)
    requires fuel > 1
    requires primary + name in fs || fallback + name in fs
    requires var lines := if primary + name in fs then fs[primary + name] else fs[fallback + name];
             (forall i :: 0 <= i < |ScanFile(lines).atoms| ==> parse(ScanFile(lines).atoms[i].chargeToken).Some?) &&
             (forall i :: 0 <= i < |ScanFile(lines).includes| ==>
                MissingEverywhere(fs, ScanFile(lines).includes[i], primary, fallback))
    ensures var lines := if primary + name in fs then fs[primary + name] else fs[fallback + name];
            Process(fs, name, primary, fallback, parse, fuel) == Run(OwnCalls(lines, parse), Returned(0))
  {
    var files := SummarizeAll(fs, parse);
    var lines := if primary + name in fs then fs[primary + name] else fs[fallback + name];
    var path := if primary + name in fs then primary + name else fallback + name;
    assert fs[path] == lines;
    assert files[path] == Summarize(lines, parse);
    SummaryOfParsedFile(lines, parse);
    var includes := ScanFile(lines).includes;
    forall i | 0 <= i < |includes|
      ensures MissingEverywhere(files, includes[i], primary, fallback)
    {
      assert MissingEverywhere(fs, includes[i], primary, fallback);
    }
    VisitWithMissingChildren(files, name, primary, fallback, fuel);
  }

  /** Fuel only bounds the model: once a run finishes without exhausting it,
      any larger bound gives the same run. */
  lemma ProcessFuelMonotone(fs: FileSystem, name: string, primary: string, fallback: string,
                            parse: ChargeParser, fuel: nat, more: nat)
    requires fuel <= more
    requires Process(fs, name, primary, fallback, parse, fuel).status != OutOfFuel
    ensures Process(fs, name, primary, fallback, parse, more) == Process(fs, name, primary, fallback, parse, fuel)
  {
    VisitFuelMonotone(SummarizeAll(fs, parse), name, primary, fallback, fuel, more);
  }

  lemma {:induction false} VisitFuelMonotone(files: Summaries, name: string, primary: string, fallback: string,
                                             fuel: nat, more: nat)
    requires fuel <= more
    requires Visit(files, name, primary, fallback, fuel).status != OutOfFuel
    ensures Visit(files, name, primary, fallback, more) == Visit(files, name, primary, fallback, fuel)
    decreases fuel, 0
  {
    match Open(files, primary + name, fallback + name)
    case None =>
    case Some(file) =>
      if !file.own.raised {
        IncludesFuelMonotone(files, file.includes, primary, fallback, fuel - 1, more - 1);
      }
  }

  lemma {:induction false} IncludesFuelMonotone(files: Summaries, includes: seq<string>, primary: string, fallback: string,
                                                fuel: nat, more: nat)
    requires fuel <= more
    requires VisitIncludes(files, includes, primary, fallback, fuel).status != OutOfFuel
    ensures VisitIncludes(files, includes, primary, fallback, more) ==
            VisitIncludes(files, includes, primary, fallback, fuel)
    decreases fuel, 1
  {
    var rs := IncludeRuns(files, includes, primary, fallback, fuel);
    var ss := IncludeRuns(files, includes, primary, fallback, more);
    forall i | 0 <= i < |rs| && rs[i].status != OutOfFuel
      ensures ss[i] == rs[i]
    {
      var t := SplitIncludePath(includes[i]);
      VisitFuelMonotone(files, t.leaf, primary + t.dir, fallback + t.dir, fuel, more);
    }
    ChainAgree(rs, ss);
  }
}
