/** The line scanner in the body of `process` (`__init__.py` lines 98-131):
    a left fold over the whitespace-split lines of one topology file with
    state (should_skip, is_atoms_section), collecting `#include` paths and
    atom records in file order. */
module Scanner {
  import opened Strings

  /** One line after `str.split()`. */
  type Tokens = seq<string>

  predicate IsIfdef(t: Tokens) { |t| >= 2 && t[0] == "#ifdef" }
  predicate IsEndif(t: Tokens) { |t| >= 1 && t[0] == "#endif" }
  predicate IsInclude(t: Tokens) { |t| >= 2 && t[0] == "#include" }

  /** A section header `[ name ]` (only the first and third token are checked). */
  predicate IsHeader(t: Tokens) { |t| >= 3 && t[0] == "[" && t[2] == "]" }
  predicate IsAtomsHeader(t: Tokens) { IsHeader(t) && t[1] == "atoms" }

  /** Shape of an atom line: at least seven fields, the first an atom index. */
  predicate IsAtomLine(t: Tokens) { |t| >= 7 && IsDigits(t[0]) }

  datatype Flags = Flags(shouldSkip: bool, inAtoms: bool)

  /** What one atom line contributes: residue name (field 3), atom name after
      the hydrogen rename (field 4), and the unparsed charge field (field 6). */
  datatype AtomRecord = AtomRecord(residue: string, name: string, chargeToken: string)

  datatype Scan = Scan(flags: Flags, includes: seq<string>, atoms: seq<AtomRecord>)

  const Start := Scan(Flags(false, false), [], [])

  /** The include target of line 114: the token without its first and last
      characters (the quotes); a token shorter than two characters gives the
      empty text. */
  function StripQuotes(tok: string): (p: string)
    ensures |tok| >= 2 ==> tok == tok[..1] + p + tok[|tok| - 1..]
    ensures |tok| < 2 ==> p == ""
  {
    if |tok| >= 2 then tok[1..|tok| - 1] else ""
  }

  predicate IsHydrogenCode(name: string) { |name| == 4 && name[0] == 'H' }

  /** The hydrogen rename of line 123: a four-character name starting with 'H'
      has its LAST character moved to the front; other names are unchanged. */
  function RenameHydrogen(name: string): (r: string)
    ensures |r| == |name|
    ensures multiset(r) == multiset(name)
    ensures IsHydrogenCode(name) ==> r[1..] + r[..1] == name
    ensures !IsHydrogenCode(name) ==> r == name
  {
    if IsHydrogenCode(name) then
      assert name == name[..3] + [name[3]];
      [name[3]] + name[..3]
    else name
  }

  lemma HydrogenExample()
    ensures RenameHydrogen("H12A") == "AH12"
    ensures RenameHydrogen("CA") == "CA"
    ensures RenameHydrogen("HA") == "HA"
  {
    var h := "H12A";
    assert IsHydrogenCode(h) && [h[3]] + h[..3] == "AH12";
    assert !IsHydrogenCode("CA") && !IsHydrogenCode("HA");
  }

  /** Every character of the renamed name comes from the original, so a word
      stays a word. */
  lemma RenameKeepsToken(name: string)
    requires IsToken(name)
    ensures IsToken(RenameHydrogen(name))
  {
    var r := RenameHydrogen(name);
    forall i | 0 <= i < |r|
      ensures !IsSpace(r[i])
    {
      assert r[i] in multiset(name);
    }
  }

  /** The PyMOL selection built at line 129. For word-shaped names it is a
      five-word phrase that splits back into its residue and atom name. */
  function Selection(rec: AtomRecord): (s: string)
    ensures IsToken(rec.residue) && IsToken(rec.name) ==>
              Split(s) == ["resn", rec.residue, "and", "name", rec.name]
  {
    SelectionWords(rec.residue, rec.name);
    "resn " + rec.residue + " and name " + rec.name
  }

  lemma SelectionWords(residue: string, name: string)
    ensures IsToken(residue) && IsToken(name) ==>
              Split("resn " + residue + " and name " + name) == ["resn", residue, "and", "name", name]
  {
    var words := ["resn", residue, "and", "name", name];
    assert "resn " + residue + " and name " + name == Unwords(words) by {
      assert words[1..][1..][1..][1..] == [name];
      assert Unwords(words[1..][1..][1..]) == "name " + name;
      assert Unwords(words[1..][1..]) == "and name " + name;
      assert Unwords(words[1..]) == residue + " and name " + name;
    }
    if IsToken(residue) && IsToken(name) {
      assert forall i :: 0 <= i < 5 ==> IsToken(words[i]);
      SplitUnwords(words);
    }
  }

  predicate RecordOfWords(rec: AtomRecord) {
    IsToken(rec.residue) && IsToken(rec.name) && IsToken(rec.chargeToken)
  }

  predicate AllWords(lines: seq<Tokens>) {
    forall k, i :: 0 <= k < |lines| && 0 <= i < |lines[k]| ==> IsToken(lines[k][i])
  }

  /** The record of an atom line (lines 121-127): the residue is field 3, the
      atom name is field 4 after the hydrogen rename, and the charge text is
      field 6. The name keeps its length and characters, and words stay words. */
  function RecordOf(t: Tokens): (rec: AtomRecord)
    requires |t| >= 7
    ensures rec.residue == t[3] && rec.chargeToken == t[6]
    ensures rec.name == RenameHydrogen(t[4])
    ensures |rec.name| == |t[4]| && multiset(rec.name) == multiset(t[4])
    ensures IsToken(t[3]) && IsToken(t[4]) && IsToken(t[6]) ==> RecordOfWords(rec)
  {
    var name := RenameHydrogen(t[4]);
    assert IsToken(t[4]) ==> IsToken(name) by {
      if IsToken(t[4]) {
        RenameKeepsToken(t[4]);
      }
    }
    AtomRecord(t[3], name, t[6])
  }

  /** An atom index is all digits, so an atom line is never a directive or a
      header line. */
  lemma AtomLineIsNoDirective(t: Tokens)
    ensures IsAtomLine(t) ==> !IsHeader(t) && !IsInclude(t) && !IsIfdef(t) && !IsEndif(t)
  {
    if IsAtomLine(t) {
      assert '0' <= t[0][0] <= '9';
      assert "["[0] == '[' && "#include"[0] == '#' && "#ifdef"[0] == '#' && "#endif"[0] == '#';
    }
  }

  /** One iteration of the loop at lines 102-131. `#ifdef` (two tokens or
      more) sets the skip flag, `#endif` clears it and the line is then handled
      normally; a skipped line changes nothing else. Otherwise an include
      appends its target, a header sets or clears the atoms flag, and an atom
      line inside the atoms section appends a record. */
  function Step(sc: Scan, t: Tokens): (r: Scan)
    ensures IsIfdef(t) ==> r.flags.shouldSkip
    ensures IsEndif(t) ==> !r.flags.shouldSkip
    ensures !IsIfdef(t) && !IsEndif(t) ==> r.flags.shouldSkip == sc.flags.shouldSkip
    ensures r.flags.shouldSkip ==> r.includes == sc.includes && r.atoms == sc.atoms
                                   && r.flags.inAtoms == sc.flags.inAtoms
    ensures IsHeader(t) ==> r.atoms == sc.atoms
    ensures sc.includes <= r.includes && sc.atoms <= r.atoms
    ensures |r.includes| + |r.atoms| <= |sc.includes| + |sc.atoms| + 1
  {
    AtomLineIsNoDirective(t);
    var skip := if IsIfdef(t) then true else if IsEndif(t) then false else sc.flags.shouldSkip;
    if skip then Scan(Flags(true, sc.flags.inAtoms), sc.includes, sc.atoms)
    else
      var includes := if IsInclude(t) then sc.includes + [StripQuotes(t[1])] else sc.includes;
      var inAtoms := if IsAtomsHeader(t) then true else if IsHeader(t) then false else sc.flags.inAtoms;
      var atoms := if inAtoms && IsAtomLine(t) then sc.atoms + [RecordOf(t)] else sc.atoms;
      Scan(Flags(false, inAtoms), includes, atoms)
  }

  /** The whole loop: Step folded over the lines from the first to the last.
      Each line yields at most one include or record, and lines made of words
      yield records made of words. */
  function ScanLines(lines: seq<Tokens>): (sc: Scan)
    ensures |sc.includes| + |sc.atoms| <= |lines|
    ensures AllWords(lines) ==> forall i :: 0 <= i < |sc.atoms| ==> RecordOfWords(sc.atoms[i])
    decreases |lines|
  {
    if |lines| == 0 then Start
    else
      var front := lines[..|lines| - 1];
      var last := lines[|lines| - 1];
      assert AllWords(lines) ==> AllWords(front);
      assert AllWords(lines) && |last| >= 7 ==> RecordOfWords(RecordOf(last)) by {
        if AllWords(lines) && |last| >= 7 {
          assert IsToken(last[4]);
          RenameKeepsToken(last[4]);
        }
      }
      Step(ScanLines(front), last)
  }

  /** Every line split on whitespace (line 103): one word list per line, and
      each list holds exactly the line's non-whitespace characters. */
  function TokenizeLines(lines: seq<string>): (ts: seq<Tokens>)
    ensures |ts| == |lines|
    ensures forall i :: 0 <= i < |lines| ==> ts[i] == Split(lines[i])
    ensures AllWords(ts)
    ensures forall i :: 0 <= i < |lines| ==> Concat(ts[i]) == NonSpace(lines[i])
  {
    assert forall i :: 0 <= i < |lines| ==> Concat(Split(lines[i])) == NonSpace(lines[i]) by {
      forall i | 0 <= i < |lines| {
        SplitKeepsContent(lines[i]);
      }
    }
    seq(|lines|, i requires 0 <= i < |lines| => Split(lines[i]))
  }

  /** Scanning the raw lines of a file: each line is split on whitespace
      (lines 102-103) and the loop is run over the word lists. The result is
      exactly what the declarative reference below describes. */
  function ScanFile(lines: seq<string>): (sc: Scan)
    ensures forall i :: 0 <= i < |sc.atoms| ==> RecordOfWords(sc.atoms[i])
    ensures sc.includes == IncludesBelow(TokenizeLines(lines), |lines|)
    ensures sc.atoms == RecordsBelow(TokenizeLines(lines), |lines|)
  {
    var ts := TokenizeLines(lines);
    ScanOfWholeFile(ts);
    ScanLines(ts)
  }

  // ---------------------------------------------------------------------------
  // Declarative reference: which lines are live, which are in an atoms section

  /** How a line acts on a boolean flag: sets it, clears it, or keeps it. */
  datatype Mark = Set | Clear | Keep

  /** After the first n marks the flag is set: the most recent mark that is
      not Keep is a Set. */
  predicate SetAfter(marks: seq<Mark>, n: nat)
    requires n <= |marks|
  {
    n > 0 &&
    match marks[n - 1]
    case Set => true
    case Clear => false
    case Keep => SetAfter(marks, n - 1)
  }

  /** Equivalently: some Set among the first n marks has no Clear after it. */
  lemma {:induction false} SetAfterMeans(marks: seq<Mark>, n: nat)
    requires n <= |marks|
    ensures SetAfter(marks, n) <==>
              exists j :: 0 <= j < n && marks[j] == Set && forall m :: j < m < n ==> marks[m] != Clear
  {
    if n > 0 {
      SetAfterMeans(marks, n - 1);
      if marks[n - 1] == Keep {
        if SetAfter(marks, n - 1) {
          var j :| 0 <= j < n - 1 && marks[j] == Set && forall m :: j < m < n - 1 ==> marks[m] != Clear;
          assert forall m :: j < m < n ==> marks[m] != Clear;
        }
        if exists j :: 0 <= j < n && marks[j] == Set && forall m :: j < m < n ==> marks[m] != Clear {
          var j :| 0 <= j < n && marks[j] == Set && forall m :: j < m < n ==> marks[m] != Clear;
          assert j < n - 1;
          assert forall m :: j < m < n - 1 ==> marks[m] != Clear;
        }
      }
    }
  }

  /** `#ifdef` sets the skip flag and `#endif` clears it; nothing nests. */
  ghost function SkipMarks(lines: seq<Tokens>): (marks: seq<Mark>)
    ensures |marks| == |lines|
  {
    seq(|lines|, k requires 0 <= k < |lines| =>
      if IsIfdef(lines[k]) then Set else if IsEndif(lines[k]) then Clear else Keep)
  }

  /** After the first n lines the skip flag is set exactly when some `#ifdef`
      among them has no `#endif` after it. */
  ghost predicate SkipAfter(lines: seq<Tokens>, n: nat)
    requires n <= |lines|
  {
    SetAfter(SkipMarks(lines), n)
  }

  /** Line k is handled (not skipped). */
  ghost predicate Live(lines: seq<Tokens>, k: nat)
    requires k < |lines|
  {
    !SkipAfter(lines, k + 1)
  }

  /** A live `[ atoms ]` header sets the atoms flag, any other live header
      clears it, everything else keeps it. */
  ghost function HeaderMarks(lines: seq<Tokens>): (marks: seq<Mark>)
    ensures |marks| == |lines|
  {
    seq(|lines|, k requires 0 <= k < |lines| =>
      if !Live(lines, k) then Keep
      else if IsAtomsHeader(lines[k]) then Set
      else if IsHeader(lines[k]) then Clear
      else Keep)
  }

  /** After the first n lines the atoms flag is set exactly when the most
      recent live header among them is `[ atoms ]`. */
  ghost predicate InAtomsAfter(lines: seq<Tokens>, n: nat)
    requires n <= |lines|
  {
    SetAfter(HeaderMarks(lines), n)
  }

  ghost predicate EmitsRecord(lines: seq<Tokens>, k: nat)
    requires k < |lines|
  {
    Live(lines, k) && InAtomsAfter(lines, k + 1) && IsAtomLine(lines[k])
  }

  ghost predicate EmitsInclude(lines: seq<Tokens>, k: nat)
    requires k < |lines|
  {
    Live(lines, k) && IsInclude(lines[k])
  }

  /** The records of the lines below n that qualify, in line order. */
  ghost function RecordsBelow(lines: seq<Tokens>, n: nat): seq<AtomRecord>
    requires n <= |lines|
  {
    if n == 0 then []
    else RecordsBelow(lines, n - 1) + (if EmitsRecord(lines, n - 1) then [RecordOf(lines[n - 1])] else [])
  }

  /** The include targets of the lines below n that qualify, in line order. */
  ghost function IncludesBelow(lines: seq<Tokens>, n: nat): seq<string>
    requires n <= |lines|
  {
    if n == 0 then []
    else IncludesBelow(lines, n - 1) + (if EmitsInclude(lines, n - 1) then [StripQuotes(lines[n - 1][1])] else [])
  }

  lemma FlagsStep(lines: seq<Tokens>, n: nat)
    requires 0 < n <= |lines|
    ensures SkipAfter(lines, n) ==
              if IsIfdef(lines[n - 1]) then true
              else if IsEndif(lines[n - 1]) then false
              else SkipAfter(lines, n - 1)
    ensures InAtomsAfter(lines, n) ==
              if !Live(lines, n - 1) then InAtomsAfter(lines, n - 1)
              else if IsAtomsHeader(lines[n - 1]) then true
              else if IsHeader(lines[n - 1]) then false
              else InAtomsAfter(lines, n - 1)
  {
  }

  lemma {:induction false} FlagsMatchReference(lines: seq<Tokens>, n: nat)
    requires n <= |lines|
    ensures ScanLines(lines[..n]).flags == Flags(SkipAfter(lines, n), InAtomsAfter(lines, n))
  {
    if n > 0 {
      FlagsMatchReference(lines, n - 1);
      FlagsStep(lines, n);
      ScanPrefixStep(lines, n);
    }
  }

  /** What one line adds to the includes and records, in terms of the skip
      and atoms flags after that line. */
  lemma StepAppends(sc: Scan, t: Tokens)
    ensures var r := Step(sc, t);
            r.includes == sc.includes + (if !r.flags.shouldSkip && IsInclude(t) then [StripQuotes(t[1])] else [])
    ensures var r := Step(sc, t);
            r.atoms == sc.atoms + (if !r.flags.shouldSkip && r.flags.inAtoms && IsAtomLine(t) then [RecordOf(t)] else [])
  {
  }

  /** ScanLines on the first n lines is one Step after the first n - 1. */
  lemma ScanPrefixStep(lines: seq<Tokens>, n: nat)
    requires 0 < n <= |lines|
    ensures ScanLines(lines[..n]) == Step(ScanLines(lines[..n - 1]), lines[n - 1])
  {
    assert lines[..n][..n - 1] == lines[..n - 1];
  }

  lemma {:induction false} IncludesMatchReference(lines: seq<Tokens>, n: nat)
    requires n <= |lines|
    ensures ScanLines(lines[..n]).includes == IncludesBelow(lines, n)
  {
    if n > 0 {
      IncludesMatchReference(lines, n - 1);
      IncludesStep(lines, n);
    }
  }

  lemma IncludesStep(lines: seq<Tokens>, n: nat)
    requires 0 < n <= |lines|
    requires ScanLines(lines[..n - 1]).includes == IncludesBelow(lines, n - 1)
    ensures ScanLines(lines[..n]).includes == IncludesBelow(lines, n)
  {
    var before := ScanLines(lines[..n - 1]);
    var t := lines[n - 1];
    var after := Step(before, t);
    ScanPrefixStep(lines, n);
    FlagsMatchReference(lines, n);
    StepAppends(before, t);
    assert EmitsInclude(lines, n - 1) == (!after.flags.shouldSkip && IsInclude(t));
  }

  lemma {:induction false} RecordsMatchReference(lines: seq<Tokens>, n: nat)
    requires n <= |lines|
    ensures ScanLines(lines[..n]).atoms == RecordsBelow(lines, n)
  {
    if n > 0 {
      RecordsMatchReference(lines, n - 1);
      RecordsStep(lines, n);
    }
  }

  lemma RecordsStep(lines: seq<Tokens>, n: nat)
    requires 0 < n <= |lines|
    requires ScanLines(lines[..n - 1]).atoms == RecordsBelow(lines, n - 1)
    ensures ScanLines(lines[..n]).atoms == RecordsBelow(lines, n)
  {
    var before := ScanLines(lines[..n - 1]);
    var t := lines[n - 1];
    var after := Step(before, t);
    ScanPrefixStep(lines, n);
    FlagsMatchReference(lines, n);
    StepAppends(before, t);
    assert EmitsRecord(lines, n - 1) == (!after.flags.shouldSkip && after.flags.inAtoms && IsAtomLine(t));
  }

  /** The fold agrees with the declarative reading: after any prefix of the
      file the flags are SkipAfter and InAtomsAfter, and the collected
      includes and records are exactly those of the qualifying lines, in file
      order. In particular a record is emitted only from a live atom line whose
      most recent live header is `[ atoms ]`, and no skipped line contributes. */
  lemma ScanMatchesReference(lines: seq<Tokens>, n: nat)
    requires n <= |lines|
    ensures ScanLines(lines[..n]).flags == Flags(SkipAfter(lines, n), InAtomsAfter(lines, n))
    ensures ScanLines(lines[..n]).includes == IncludesBelow(lines, n)
    ensures ScanLines(lines[..n]).atoms == RecordsBelow(lines, n)
  {
    FlagsMatchReference(lines, n);
    IncludesMatchReference(lines, n);
    RecordsMatchReference(lines, n);
  }

  /** The same statement for the whole file. */
  lemma ScanOfWholeFile(lines: seq<Tokens>)
    ensures ScanLines(lines).includes == IncludesBelow(lines, |lines|)
    ensures ScanLines(lines).atoms == RecordsBelow(lines, |lines|)
  {
    ScanMatchesReference(lines, |lines|);
    assert lines[..|lines|] == lines;
  }

  /** The skip flag is flat: an `#endif` makes its own line live whatever
      number of `#ifdef` lines came before it. */
  lemma EndifLineIsLive(lines: seq<Tokens>, k: nat)
    requires k < |lines| && IsEndif(lines[k])
    ensures Live(lines, k)
  {
    FlagsStep(lines, k + 1);
  }

  /** An `#ifdef` line is itself skipped and so never contributes; the skip
      lasts until the next `#endif`. */
  lemma IfdefSkipsUntilEndif(lines: seq<Tokens>, k: nat, m: nat)
    requires k <= m < |lines| && IsIfdef(lines[k])
    requires forall i :: k < i <= m ==> !IsEndif(lines[i])
    ensures !Live(lines, m)
    ensures !EmitsRecord(lines, m) && !EmitsInclude(lines, m)
  {
    var marks := SkipMarks(lines);
    assert marks[k] == Set;
    assert forall i :: k < i < m + 1 ==> marks[i] != Clear;
    SetAfterMeans(marks, m + 1);
  }

  /** A header line never yields a record, whatever section it opens. */
  lemma HeaderEmitsNoRecord(lines: seq<Tokens>, k: nat)
    requires k < |lines| && IsHeader(lines[k])
    ensures !EmitsRecord(lines, k)
  {
    AtomLineIsNoDirective(lines[k]);
  }

  /** Section gating: a record comes only from a line below a live
      `[ atoms ]` header with no live header of another section in between. */
  lemma RecordFollowsAtomsHeader(lines: seq<Tokens>, k: nat)
    requires k < |lines| && EmitsRecord(lines, k)
    ensures exists j :: 0 <= j < k && Live(lines, j) && IsAtomsHeader(lines[j]) &&
                        forall m :: j < m < k && Live(lines, m) && IsHeader(lines[m]) ==> IsAtomsHeader(lines[m])
  {
    var marks := HeaderMarks(lines);
    SetAfterMeans(marks, k + 1);
    var j :| 0 <= j < k + 1 && marks[j] == Set && forall m :: j < m < k + 1 ==> marks[m] != Clear;
    AtomLineIsNoDirective(lines[k]);
    assert j != k;
    forall m | j < m < k && Live(lines, m) && IsHeader(lines[m])
      ensures IsAtomsHeader(lines[m])
    {
      assert marks[m] != Clear;
    }
  }

  /** A nested `#ifdef` is not counted: after `#ifdef A`, `#ifdef B`, `#endif`
      the following atom line inside `[ atoms ]` is already emitted, with its
      hydrogen name rotated. */
  lemma FlatIfdefExample()
    ensures ScanLines([
              ["[", "atoms", "]"],
              ["#ifdef", "A"],
              ["#ifdef", "B"],
              ["#endif"],
              ["1", "opls_140", "1", "ALA", "H12A", "1", "0.06"]
            ]).atoms == [AtomRecord("ALA", "AH12", "0.06")]
  {
    var lines: seq<Tokens> := [
      ["[", "atoms", "]"],
      ["#ifdef", "A"],
      ["#ifdef", "B"],
      ["#endif"],
      ["1", "opls_140", "1", "ALA", "H12A", "1", "0.06"]
    ];
    var s4 := Scan(Flags(false, true), [], []);
    assert ScanLines(lines[..1]) == Scan(Flags(false, true), [], []) by {
      assert lines[..1][..0] == [];
      assert lines[..1][0] == ["[", "atoms", "]"];
    }
    assert ScanLines(lines[..2]) == Scan(Flags(true, true), [], []) by {
      assert lines[..2][..1] == lines[..1];
      assert lines[..2][1] == ["#ifdef", "A"];
    }
    assert ScanLines(lines[..3]) == Scan(Flags(true, true), [], []) by {
      assert lines[..3][..2] == lines[..2];
      assert lines[..3][2] == ["#ifdef", "B"];
    }
    assert ScanLines(lines[..4]) == s4 by {
      assert lines[..4][..3] == lines[..3];
      assert lines[..4][3] == ["#endif"];
    }
    LastAtomLineExample(s4);
    assert lines[..4] == lines[..|lines| - 1];
  }

  lemma LastAtomLineExample(s4: Scan)
    requires s4 == Scan(Flags(false, true), [], [])
    ensures Step(s4, ["1", "opls_140", "1", "ALA", "H12A", "1", "0.06"]).atoms
              == [AtomRecord("ALA", "AH12", "0.06")]
  {
    var t: Tokens := ["1", "opls_140", "1", "ALA", "H12A", "1", "0.06"];
    assert IsDigits(t[0]);
    AtomLineIsNoDirective(t);
    assert RecordOf(t) == AtomRecord("ALA", "AH12", "0.06") by {
      assert t[3] == "ALA" && t[4] == "H12A" && t[6] == "0.06";
      HydrogenExample();
    }
    assert Step(s4, t) == Scan(Flags(false, true), [], [RecordOf(t)]);
  }
}
