/**
 * The loader's file readers (include/workers/reader.go). A reader takes the
 * chunk of a trace file that starts at its offset, hands every whole line to
 * its log handler, and the handler turns each line that matches the Go trace
 * grammar into a packet for the reductor that the packet's trace key hashes
 * to. Go strings are byte strings; here they are character sequences, and
 * offsets count characters, which is exact for ASCII trace files.
 */
module GoReader {
  import opened Wrappers
  import opened Strings
  import opened KvMaps
  import Fnv

  // ---------------------------------------------------------------------
  // The Go trace grammar of reader.go:21
  //
  //   ^(\d+)\s+\{pid=(\d+)\s+tid=(\d+)\s+proc=([^\}]+)\}\{(EN|EX)\s+([^\}]+)\}(?:\{([^\}]*)\})?$
  //
  // Go's `\s` is [\t\n\f\r ]. Unlike the Python grammar the operand may hold
  // spaces, so the run of spaces before it is split the way the leftmost-first
  // engine splits it: `\s+` takes the whole run, and gives its last character
  // back to the operand only when nothing but `}` follows the run.
  // ---------------------------------------------------------------------

  /** The submatches 1 to 7; `kv` is empty when the optional block is absent. */
  datatype GoMatch = GoMatch(
    ts: string, pid: string, tid: string, proc: string,
    status: string, operand: string, kv: string)

  /** The uncaptured spaces, and whether the optional `{...}` block is present. */
  datatype GoGaps = GoGaps(afterTs: string, afterPid: string, afterTid: string, afterStatus: string, hasBlock: bool)

  /** An operand as the leftmost-first engine captures it after a run of spaces. */
  predicate LeftmostOperand(operand: string)
  {
    |operand| > 0 && AllIn(operand, NotBrace) && (!InClass(operand[0], GoRegexSpace) || |operand| == 1)
  }

  /** Submatches the engine can report. */
  predicate WellFormed(m: GoMatch)
  {
    && |m.ts| > 0 && AllIn(m.ts, Digit)
    && |m.pid| > 0 && AllIn(m.pid, Digit)
    && |m.tid| > 0 && AllIn(m.tid, Digit)
    && |m.proc| > 0 && AllIn(m.proc, NotBrace)
    && (m.status == "EN" || m.status == "EX")
    && LeftmostOperand(m.operand)
    && AllIn(m.kv, NotBrace)
  }

  predicate ValidGaps(m: GoMatch, g: GoGaps)
  {
    && |g.afterTs| > 0 && AllIn(g.afterTs, GoRegexSpace)
    && |g.afterPid| > 0 && AllIn(g.afterPid, GoRegexSpace)
    && |g.afterTid| > 0 && AllIn(g.afterTid, GoRegexSpace)
    && |g.afterStatus| > 0 && AllIn(g.afterStatus, GoRegexSpace)
    && (!g.hasBlock ==> m.kv == "")
  }

  function Block(m: GoMatch, g: GoGaps): string
  {
    if g.hasBlock then "{" + (m.kv + "}") else ""
  }

  function OperandOnward(m: GoMatch, g: GoGaps): string
  {
    m.operand + ("}" + Block(m, g))
  }

  function StatusOnward(m: GoMatch, g: GoGaps): string
  {
    m.status + (g.afterStatus + OperandOnward(m, g))
  }

  function ProcOnward(m: GoMatch, g: GoGaps): string
  {
    "proc=" + (m.proc + ("}{" + StatusOnward(m, g)))
  }

  function TidOnward(m: GoMatch, g: GoGaps): string
  {
    "tid=" + (m.tid + (g.afterTid + ProcOnward(m, g)))
  }

  function PidOnward(m: GoMatch, g: GoGaps): string
  {
    "{pid=" + (m.pid + (g.afterPid + TidOnward(m, g)))
  }

  /** The text of a line with the given submatches and spaces. */
  function ComposeLine(m: GoMatch, g: GoGaps): string
  {
    m.ts + (g.afterTs + PidOnward(m, g))
  }

  function MatchBlock(s: string, acc: (GoMatch, GoGaps)): Option<(GoMatch, GoGaps)>
  {
    if s == "" then Some((acc.0.(kv := ""), acc.1.(hasBlock := false)))
    else
      var r1 :- Lit(s, "{");
      var b :- Run(r1, NotBrace, 0);
      var r2 :- Lit(b.1, "}");
      if r2 == "" then Some((acc.0.(kv := b.0), acc.1.(hasBlock := true))) else None
  }

  /**
   * Where `\s+` ends before the operand: the whole run of spaces, or all of it
   * but its last character when only `}` or the end of the text follows the run.
   * Zero when no split leaves both parts non-empty.
   */
  function SpaceCut(s: string): (cut: nat)
    ensures cut <= |s|
  {
    var w := Span(s, GoRegexSpace);
    if w == 0 then 0 else if w < |s| && s[w] != '}' then w else w - 1
  }

  lemma CutSpaces(s: string)
    requires SpaceCut(s) > 0
    ensures AllIn(s[..SpaceCut(s)], GoRegexSpace)
  {
    var w := Span(s, GoRegexSpace);
    assert forall i :: 0 <= i < SpaceCut(s) ==> s[..SpaceCut(s)][i] == s[..w][i];
  }

  /** Whatever run of non-braces the operand group takes after the cut is a leftmost operand. */
  lemma CutOperand(s: string, op: string, rest: string)
    requires SpaceCut(s) > 0
    requires op + rest == s[SpaceCut(s)..] && |op| >= 1 && AllIn(op, NotBrace)
    ensures LeftmostOperand(op)
  {
    var w := Span(s, GoRegexSpace);
    var cut := SpaceCut(s);
    assert op[0] == s[cut];
  }

  /** `\s+([^\}]+)\}` followed by the optional block and the end of the line. */
  function MatchSpaceOperandOnward(s: string, acc: (GoMatch, GoGaps)): Option<(GoMatch, GoGaps)>
  {
    var cut := SpaceCut(s);
    if cut == 0 then None
    else
      var op :- Run(s[cut..], NotBrace, 1);
      var r :- Lit(op.1, "}");
      MatchBlock(r, (acc.0.(operand := op.0), acc.1.(afterStatus := s[..cut])))
  }

  function MatchStatusOnward(s: string, acc: (GoMatch, GoGaps)): Option<(GoMatch, GoGaps)>
  {
    var st :- Status(s);
    MatchSpaceOperandOnward(st.1, (acc.0.(status := st.0), acc.1))
  }

  function MatchProcOnward(s: string, acc: (GoMatch, GoGaps)): Option<(GoMatch, GoGaps)>
  {
    var r1 :- Lit(s, "proc=");
    var p :- Run(r1, NotBrace, 1);
    var r2 :- Lit(p.1, "}{");
    MatchStatusOnward(r2, (acc.0.(proc := p.0), acc.1))
  }

  function MatchTidOnward(s: string, acc: (GoMatch, GoGaps)): Option<(GoMatch, GoGaps)>
  {
    var r1 :- Lit(s, "tid=");
    var td :- Run(r1, Digit, 1);
    var w :- Run(td.1, GoRegexSpace, 1);
    MatchProcOnward(w.1, (acc.0.(tid := td.0), acc.1.(afterTid := w.0)))
  }

  function MatchPidOnward(s: string, acc: (GoMatch, GoGaps)): Option<(GoMatch, GoGaps)>
  {
    var r1 :- Lit(s, "{pid=");
    var pd :- Run(r1, Digit, 1);
    var w :- Run(pd.1, GoRegexSpace, 1);
    MatchTidOnward(w.1, (acc.0.(pid := pd.0), acc.1.(afterPid := w.0)))
  }

  const NoGroups := GoMatch("", "", "", "", "", "", "")
  const NoGaps := GoGaps("", "", "", "", false)

  function MatchLine(s: string): Option<(GoMatch, GoGaps)>
  {
    var tm :- Run(s, Digit, 1);
    var w :- Run(tm.1, GoRegexSpace, 1);
    MatchPidOnward(w.1, (NoGroups.(ts := tm.0), NoGaps.(afterTs := w.0)))
  }

  /** `re.FindStringSubmatch(line)`: the submatches, or None where Go returns nil. */
  function FindSubmatch(line: string): Option<GoMatch>
  {
    match MatchLine(line)
    case Some(mg) => Some(mg.0)
    case None => None
  }

  // Every well-formed layout is recognised as what it was laid out from.

  lemma BlockMatched(m: GoMatch, g: GoGaps, acc: (GoMatch, GoGaps))
    requires AllIn(m.kv, NotBrace) && (!g.hasBlock ==> m.kv == "")
    requires acc.0.(kv := m.kv) == m && acc.1.(hasBlock := g.hasBlock) == g
    ensures MatchBlock(Block(m, g), acc) == Some((m, g))
  {
    if g.hasBlock {
      LitOfConcat("{", m.kv + "}");
      RunOfConcat(m.kv, "}", NotBrace, 0);
      LitOfConcat("}", "");
      assert "}" + "" == "}";
    }
  }

  lemma SpaceOperandMatched(m: GoMatch, g: GoGaps, acc: (GoMatch, GoGaps))
    requires |g.afterStatus| > 0 && AllIn(g.afterStatus, GoRegexSpace) && LeftmostOperand(m.operand)
    requires AllIn(m.kv, NotBrace) && (!g.hasBlock ==> m.kv == "")
    requires acc.0.(operand := m.operand, kv := m.kv) == m
    requires acc.1.(afterStatus := g.afterStatus, hasBlock := g.hasBlock) == g
    ensures MatchSpaceOperandOnward(g.afterStatus + OperandOnward(m, g), acc) == Some((m, g))
  {
    var ws := g.afterStatus;
    var tail := OperandOnward(m, g);
    var rest := "}" + Block(m, g);
    var s := ws + tail;
    CutBeforeOperand(ws, m.operand, rest);
    assert s[|ws|..] == tail;
    assert s[..|ws|] == ws;
    RunOfConcat(m.operand, rest, NotBrace, 1);
    LitOfConcat("}", Block(m, g));
    BlockMatched(m, g, (acc.0.(operand := m.operand), acc.1.(afterStatus := ws)));
  }

  /** The engine's `\s+` stops right before a leftmost operand. */
  lemma CutBeforeOperand(ws: string, operand: string, rest: string)
    requires |ws| > 0 && AllIn(ws, GoRegexSpace) && LeftmostOperand(operand)
    requires |rest| > 0 && rest[0] == '}'
    ensures SpaceCut(ws + (operand + rest)) == |ws|
  {
    var s := ws + (operand + rest);
    if !InClass(operand[0], GoRegexSpace) {
      SpanOfConcat(ws, operand + rest, GoRegexSpace);
      assert s[|ws|] == operand[0];
    } else {
      assert s == (ws + operand) + rest;
      assert AllIn(ws + operand, GoRegexSpace);
      SpanOfConcat(ws + operand, rest, GoRegexSpace);
      assert s[|ws| + 1] == '}';
    }
  }

  lemma StatusOnwardMatched(m: GoMatch, g: GoGaps, acc: (GoMatch, GoGaps))
    requires (m.status == "EN" || m.status == "EX")
    requires |g.afterStatus| > 0 && AllIn(g.afterStatus, GoRegexSpace) && LeftmostOperand(m.operand)
    requires AllIn(m.kv, NotBrace) && (!g.hasBlock ==> m.kv == "")
    requires acc.0.(status := m.status, operand := m.operand, kv := m.kv) == m
    requires acc.1.(afterStatus := g.afterStatus, hasBlock := g.hasBlock) == g
    ensures MatchStatusOnward(StatusOnward(m, g), acc) == Some((m, g))
  {
    var rest := g.afterStatus + OperandOnward(m, g);
    LitOfConcat(m.status, rest);
    if m.status == "EX" {
      assert (m.status + rest)[1] == 'X';
    }
    assert Status(m.status + rest) == Some((m.status, rest));
    SpaceOperandMatched(m, g, (acc.0.(status := m.status), acc.1));
  }

  lemma ProcOnwardMatched(m: GoMatch, g: GoGaps, acc: (GoMatch, GoGaps))
    requires |m.proc| > 0 && AllIn(m.proc, NotBrace) && (m.status == "EN" || m.status == "EX")
    requires |g.afterStatus| > 0 && AllIn(g.afterStatus, GoRegexSpace) && LeftmostOperand(m.operand)
    requires AllIn(m.kv, NotBrace) && (!g.hasBlock ==> m.kv == "")
    requires acc.0.(proc := m.proc, status := m.status, operand := m.operand, kv := m.kv) == m
    requires acc.1.(afterStatus := g.afterStatus, hasBlock := g.hasBlock) == g
    ensures MatchProcOnward(ProcOnward(m, g), acc) == Some((m, g))
  {
    var tail := StatusOnward(m, g);
    LitOfConcat("proc=", m.proc + ("}{" + tail));
    RunOfConcat(m.proc, "}{" + tail, NotBrace, 1);
    LitOfConcat("}{", tail);
    StatusOnwardMatched(m, g, (acc.0.(proc := m.proc), acc.1));
  }

  lemma TidOnwardMatched(m: GoMatch, g: GoGaps, acc: (GoMatch, GoGaps))
    requires WellFormed(m) && ValidGaps(m, g)
    requires acc.0.(tid := m.tid, proc := m.proc, status := m.status, operand := m.operand, kv := m.kv) == m
    requires acc.1.(afterTid := g.afterTid, afterStatus := g.afterStatus, hasBlock := g.hasBlock) == g
    ensures MatchTidOnward(TidOnward(m, g), acc) == Some((m, g))
  {
    var tail := ProcOnward(m, g);
    LitOfConcat("tid=", m.tid + (g.afterTid + tail));
    RunOfConcat(m.tid, g.afterTid + tail, Digit, 1);
    RunOfConcat(g.afterTid, tail, GoRegexSpace, 1);
    ProcOnwardMatched(m, g, (acc.0.(tid := m.tid), acc.1.(afterTid := g.afterTid)));
  }

  lemma PidOnwardMatched(m: GoMatch, g: GoGaps, acc: (GoMatch, GoGaps))
    requires WellFormed(m) && ValidGaps(m, g)
    requires acc.0.(pid := m.pid, tid := m.tid, proc := m.proc, status := m.status, operand := m.operand, kv := m.kv) == m
    requires acc.1.(afterPid := g.afterPid, afterTid := g.afterTid, afterStatus := g.afterStatus, hasBlock := g.hasBlock) == g
    ensures MatchPidOnward(PidOnward(m, g), acc) == Some((m, g))
  {
    var tail := TidOnward(m, g);
    LitOfConcat("{pid=", m.pid + (g.afterPid + tail));
    RunOfConcat(m.pid, g.afterPid + tail, Digit, 1);
    RunOfConcat(g.afterPid, tail, GoRegexSpace, 1);
    TidOnwardMatched(m, g, (acc.0.(pid := m.pid), acc.1.(afterPid := g.afterPid)));
  }

  /** Every well-formed line is recognised, with exactly the submatches it was laid out from. */
  lemma MatchCompose(m: GoMatch, g: GoGaps)
    requires WellFormed(m) && ValidGaps(m, g)
    ensures MatchLine(ComposeLine(m, g)) == Some((m, g))
  {
    var tail := PidOnward(m, g);
    RunOfConcat(m.ts, g.afterTs + tail, Digit, 1);
    RunOfConcat(g.afterTs, tail, GoRegexSpace, 1);
    PidOnwardMatched(m, g, (NoGroups.(ts := m.ts), NoGaps.(afterTs := g.afterTs)));
  }

  // Whatever is recognised is a well-formed layout.

  lemma BlockSound(s: string, acc: (GoMatch, GoGaps))
    requires MatchBlock(s, acc).Some?
    ensures var r := MatchBlock(s, acc).value;
      && AllIn(r.0.kv, NotBrace) && (!r.1.hasBlock ==> r.0.kv == "")
      && r.0.(kv := acc.0.kv) == acc.0 && r.1.(hasBlock := acc.1.hasBlock) == acc.1
      && Block(r.0, r.1) == s
  {
  }

  lemma SpaceOperandSound(s: string, acc: (GoMatch, GoGaps))
    requires MatchSpaceOperandOnward(s, acc).Some?
    ensures var r := MatchSpaceOperandOnward(s, acc).value;
      && |r.1.afterStatus| > 0 && AllIn(r.1.afterStatus, GoRegexSpace) && LeftmostOperand(r.0.operand)
      && AllIn(r.0.kv, NotBrace) && (!r.1.hasBlock ==> r.0.kv == "")
      && r.0.(operand := acc.0.operand, kv := acc.0.kv) == acc.0
      && r.1.(afterStatus := acc.1.afterStatus, hasBlock := acc.1.hasBlock) == acc.1
      && r.1.afterStatus + OperandOnward(r.0, r.1) == s
  {
    var cut := SpaceCut(s);
    var op := Run(s[cut..], NotBrace, 1).value;
    var r := Lit(op.1, "}").value;
    BlockSound(r, (acc.0.(operand := op.0), acc.1.(afterStatus := s[..cut])));
    CutSpaces(s);
    CutOperand(s, op.0, op.1);
    assert s == s[..cut] + s[cut..];
  }

  lemma StatusOnwardSound(s: string, acc: (GoMatch, GoGaps))
    requires MatchStatusOnward(s, acc).Some?
    ensures var r := MatchStatusOnward(s, acc).value;
      && (r.0.status == "EN" || r.0.status == "EX")
      && |r.1.afterStatus| > 0 && AllIn(r.1.afterStatus, GoRegexSpace) && LeftmostOperand(r.0.operand)
      && AllIn(r.0.kv, NotBrace) && (!r.1.hasBlock ==> r.0.kv == "")
      && r.0.(status := acc.0.status, operand := acc.0.operand, kv := acc.0.kv) == acc.0
      && r.1.(afterStatus := acc.1.afterStatus, hasBlock := acc.1.hasBlock) == acc.1
      && StatusOnward(r.0, r.1) == s
  {
    var st := Status(s).value;
    SpaceOperandSound(st.1, (acc.0.(status := st.0), acc.1));
  }

  lemma ProcOnwardSound(s: string, acc: (GoMatch, GoGaps))
    requires MatchProcOnward(s, acc).Some?
    ensures var r := MatchProcOnward(s, acc).value;
      && |r.0.proc| > 0 && AllIn(r.0.proc, NotBrace) && (r.0.status == "EN" || r.0.status == "EX")
      && |r.1.afterStatus| > 0 && AllIn(r.1.afterStatus, GoRegexSpace) && LeftmostOperand(r.0.operand)
      && AllIn(r.0.kv, NotBrace) && (!r.1.hasBlock ==> r.0.kv == "")
      && r.0.(proc := acc.0.proc, status := acc.0.status, operand := acc.0.operand, kv := acc.0.kv) == acc.0
      && r.1.(afterStatus := acc.1.afterStatus, hasBlock := acc.1.hasBlock) == acc.1
      && ProcOnward(r.0, r.1) == s
  {
    var r1 := Lit(s, "proc=").value;
    var p := Run(r1, NotBrace, 1).value;
    var r2 := Lit(p.1, "}{").value;
    StatusOnwardSound(r2, (acc.0.(proc := p.0), acc.1));
  }

  lemma TidOnwardSound(s: string, acc: (GoMatch, GoGaps))
    requires MatchTidOnward(s, acc).Some?
    ensures var r := MatchTidOnward(s, acc).value;
      && |r.0.tid| > 0 && AllIn(r.0.tid, Digit) && |r.1.afterTid| > 0 && AllIn(r.1.afterTid, GoRegexSpace)
      && |r.0.proc| > 0 && AllIn(r.0.proc, NotBrace) && (r.0.status == "EN" || r.0.status == "EX")
      && |r.1.afterStatus| > 0 && AllIn(r.1.afterStatus, GoRegexSpace) && LeftmostOperand(r.0.operand)
      && AllIn(r.0.kv, NotBrace) && (!r.1.hasBlock ==> r.0.kv == "")
      && r.0.(tid := acc.0.tid, proc := acc.0.proc, status := acc.0.status, operand := acc.0.operand, kv := acc.0.kv) == acc.0
      && r.1.(afterTid := acc.1.afterTid, afterStatus := acc.1.afterStatus, hasBlock := acc.1.hasBlock) == acc.1
      && TidOnward(r.0, r.1) == s
  {
    var r1 := Lit(s, "tid=").value;
    var td := Run(r1, Digit, 1).value;
    var w := Run(td.1, GoRegexSpace, 1).value;
    ProcOnwardSound(w.1, (acc.0.(tid := td.0), acc.1.(afterTid := w.0)));
  }

  lemma PidOnwardSound(s: string, acc: (GoMatch, GoGaps))
    requires MatchPidOnward(s, acc).Some?
    ensures var r := MatchPidOnward(s, acc).value;
      && |r.0.pid| > 0 && AllIn(r.0.pid, Digit) && |r.1.afterPid| > 0 && AllIn(r.1.afterPid, GoRegexSpace)
      && |r.0.tid| > 0 && AllIn(r.0.tid, Digit) && |r.1.afterTid| > 0 && AllIn(r.1.afterTid, GoRegexSpace)
      && |r.0.proc| > 0 && AllIn(r.0.proc, NotBrace) && (r.0.status == "EN" || r.0.status == "EX")
      && |r.1.afterStatus| > 0 && AllIn(r.1.afterStatus, GoRegexSpace) && LeftmostOperand(r.0.operand)
      && AllIn(r.0.kv, NotBrace) && (!r.1.hasBlock ==> r.0.kv == "")
      && r.0.ts == acc.0.ts && r.1.afterTs == acc.1.afterTs
      && PidOnward(r.0, r.1) == s
  {
    var r1 := Lit(s, "{pid=").value;
    var pd := Run(r1, Digit, 1).value;
    var w := Run(pd.1, GoRegexSpace, 1).value;
    TidOnwardSound(w.1, (acc.0.(pid := pd.0), acc.1.(afterPid := w.0)));
  }

  /** Whatever is recognised is a well-formed line laid out from the submatches and spaces returned. */
  lemma MatchSound(s: string)
    requires MatchLine(s).Some?
    ensures WellFormed(MatchLine(s).value.0) && ValidGaps(MatchLine(s).value.0, MatchLine(s).value.1)
    ensures ComposeLine(MatchLine(s).value.0, MatchLine(s).value.1) == s
  {
    var tm := Run(s, Digit, 1).value;
    var w := Run(tm.1, GoRegexSpace, 1).value;
    PidOnwardSound(w.1, (NoGroups.(ts := tm.0), NoGaps.(afterTs := w.0)));
  }

  /** The Go pattern matches a line iff the line can be laid out from well-formed submatches. */
  lemma MatchIffComposed(s: string)
    ensures FindSubmatch(s).Some? <==> exists m, g :: WellFormed(m) && ValidGaps(m, g) && ComposeLine(m, g) == s
  {
    if FindSubmatch(s).Some? {
      MatchSound(s);
      var mg := MatchLine(s).value;
      assert WellFormed(mg.0) && ValidGaps(mg.0, mg.1) && ComposeLine(mg.0, mg.1) == s;
    }
    if exists m, g :: WellFormed(m) && ValidGaps(m, g) && ComposeLine(m, g) == s {
      var m, g :| WellFormed(m) && ValidGaps(m, g) && ComposeLine(m, g) == s;
      MatchCompose(m, g);
    }
  }

  /** The kv block is optional: a line without it reports an empty seventh submatch. */
  lemma NoBlockEmptyKv(m: GoMatch, g: GoGaps)
    requires WellFormed(m) && ValidGaps(m, g) && !g.hasBlock
    ensures FindSubmatch(ComposeLine(m, g)) == Some(m) && m.kv == ""
  {
    MatchCompose(m, g);
  }

  // ---------------------------------------------------------------------
  // The key=value block of reader.go:130-137
  // ---------------------------------------------------------------------

  /** `strings.SplitN(part, "=", 2)` kept only when it gives two pieces. */
  function KvPiece(part: string): (r: Option<(string, string)>)
    ensures r.Some? <==> !Free(part, "=")
    ensures r.Some? ==> r.value.0 + "=" + r.value.1 == part && Free(r.value.0, "=")
  {
    var kv := SplitOnce(part, "=");
    if |kv| == 2 then Some((kv[0], kv[1])) else None
  }

  /** The kv map: the block split on single spaces, each piece at its first `=`, last wins. */
  function KvOf(block: string): map<string, string>
  {
    BuildMap(Pairs(Split(block, " "), KvPiece))
  }

  /** The loop of reader.go:130-137. */
  method ParseKv(block: string) returns (kv: map<string, string>)
    ensures kv == KvOf(block)
  {
    var parts := Split(block, " ");
    kv := map[];
    var i := 0;
    assert Pairs(parts[..0], KvPiece) == [];
    assert kv == BuildMap<string, string>([]);
    while i < |parts|
      invariant 0 <= i <= |parts|
      invariant kv == BuildMap(Pairs(parts[..i], KvPiece))
    {
      var kvPair := SplitOnce(parts[i], "=");
      KvStep(parts, i);
      if |kvPair| == 2 {
        kv := kv[kvPair[0] := kvPair[1]];
      }
      i := i + 1;
    }
    assert parts[..i] == parts;
  }

  /** One more piece of the block either sets its key or, without `=`, leaves the map as it was. */
  lemma KvStep(parts: seq<string>, i: nat)
    requires i < |parts|
    ensures var kvPair := SplitOnce(parts[i], "=");
      var before := BuildMap(Pairs(parts[..i], KvPiece));
      BuildMap(Pairs(parts[..i + 1], KvPiece)) == if |kvPair| == 2 then before[kvPair[0] := kvPair[1]] else before
  {
    var kvPair := SplitOnce(parts[i], "=");
    var ps := Pairs(parts[..i], KvPiece);
    PairsPrefixStep(parts, i, KvPiece);
    if |kvPair| == 2 {
      assert Pairs(parts[..i + 1], KvPiece) == ps + [(kvPair[0], kvPair[1])];
      BuildMapSnoc(ps, (kvPair[0], kvPair[1]));
    } else {
      assert Pairs(parts[..i + 1], KvPiece) == ps + [];
      assert ps + [] == ps;
    }
  }

  /**
   * A key is in the kv map iff some space-separated piece holds `=` with that
   * key before its first `=`; it maps to the rest of the last such piece.
   * Pieces without `=`, among them the empty ones, are ignored.
   */
  lemma KvMeaning(block: string, key: string)
    ensures var parts := Split(block, " ");
      key in KvOf(block) <==> exists i :: 0 <= i < |parts| && KvPiece(parts[i]).Some? && KvPiece(parts[i]).value.0 == key
    ensures var parts := Split(block, " ");
      forall i :: IsLastAccepted(parts, KvPiece, key, i) ==> KvOf(block)[key] == KvPiece(parts[i]).value.1
  {
    var parts := Split(block, " ");
    PairsLastWins(parts, KvPiece, key);
  }

  /** An absent block gives an empty kv map. */
  lemma EmptyBlockEmptyKv()
    ensures KvOf("") == map[]
  {
    assert IndexOf("", " ") == None;
    assert Split("", " ") == [""];
    assert SplitOnce("", "=") == [""];
    assert Pairs([""], KvPiece) == Pairs<string, string, string>([], KvPiece);
  }

  // ---------------------------------------------------------------------
  // Packets
  // ---------------------------------------------------------------------

  datatype TraceEvent = TraceEvent(
    timestamp: int, pid: int, tid: int, proc: string,
    eventType: string, event: string, kv: map<string, string>)

  datatype Packet = Packet(
    partitionIndex: int, partitionName: string, traceKey: string,
    traceEvent: TraceEvent, traceEventRaw: string)

  /** `fmt.Sprintf("%d-%d-%s-%s", pid, tid, proc, operand)`. */
  function TraceKey(pid: int, tid: int, proc: string, operand: string): string
  {
    IntToDecimal(pid) + "-" + IntToDecimal(tid) + "-" + proc + "-" + operand
  }

  /** The packet the handler builds for a line, or None for a line the grammar rejects. */
  function PacketOf(line: string, id: int, path: string): Option<Packet>
  {
    var trimmed := Trim(line, GoSpace);
    var m :- FindSubmatch(trimmed);
    var event := TraceEvent(GoAtoi(m.ts), GoAtoi(m.pid), GoAtoi(m.tid), m.proc, m.status, m.operand, KvOf(m.kv));
    Some(Packet(id, path, TraceKey(event.pid, event.tid, event.proc, event.event), event, trimmed))
  }

  /**
   * The trace key leaves out EN/EX, the timestamp and the kv block: the ENTER
   * and the EXIT line of one call have the same key and so reach the same reductor.
   */
  lemma EnterExitSameKey(m1: GoMatch, g1: GoGaps, m2: GoMatch, g2: GoGaps, id1: int, id2: int, path1: string, path2: string, n: nat)
    requires WellFormed(m1) && ValidGaps(m1, g1) && WellFormed(m2) && ValidGaps(m2, g2)
    requires m1.pid == m2.pid && m1.tid == m2.tid && m1.proc == m2.proc && m1.operand == m2.operand
    requires 0 < n < Fnv.TwoTo64
    ensures PacketOf(ComposeLine(m1, g1), id1, path1).Some? && PacketOf(ComposeLine(m2, g2), id2, path2).Some?
    ensures PacketOf(ComposeLine(m1, g1), id1, path1).value.traceKey == PacketOf(ComposeLine(m2, g2), id2, path2).value.traceKey
    ensures Fnv.HashToRange(PacketOf(ComposeLine(m1, g1), id1, path1).value.traceKey, n)
         == Fnv.HashToRange(PacketOf(ComposeLine(m2, g2), id2, path2).value.traceKey, n)
  {
    ComposedKey(m1, g1, id1, path1);
    ComposedKey(m2, g2, id2, path2);
  }

  /** A well-formed line is accepted, and its trace key is built from its pid, tid, proc and operand. */
  lemma ComposedKey(m: GoMatch, g: GoGaps, id: int, path: string)
    requires WellFormed(m) && ValidGaps(m, g)
    ensures PacketOf(ComposeLine(m, g), id, path).Some?
    ensures PacketOf(ComposeLine(m, g), id, path).value.traceKey == TraceKey(GoAtoi(m.pid), GoAtoi(m.tid), m.proc, m.operand)
  {
    ComposedIsTrimmed(m, g);
    MatchCompose(m, g);
  }

  /** A composed line has no surrounding space, so trimming keeps it. */
  lemma ComposedIsTrimmed(m: GoMatch, g: GoGaps)
    requires WellFormed(m) && ValidGaps(m, g)
    ensures Trim(ComposeLine(m, g), GoSpace) == ComposeLine(m, g)
  {
    var s := ComposeLine(m, g);
    assert s[0] == m.ts[0];
    assert !InClass(s[0], GoSpace);
    assert Span(s, GoSpace) == 0;
    assert s[0..] == s;
    assert s[|s| - 1] == '}' by {
      var t := "}" + Block(m, g);
      if g.hasBlock {
        assert Block(m, g)[|Block(m, g)| - 1] == '}';
      }
      LastOfConcat(m.ts + (g.afterTs + ("{pid=" + (m.pid + (g.afterPid + ("tid=" + (m.tid + (g.afterTid
        + ("proc=" + (m.proc + ("}{" + (m.status + (g.afterStatus + m.operand)))))))))))), t, s);
    }
  }

  lemma LastOfConcat(a: string, t: string, s: string)
    requires |t| > 0 && s == a + t
    ensures s[|s| - 1] == t[|t| - 1]
  {
  }

  // ---------------------------------------------------------------------
  // The chunk rule of reader.go:85-113
  // ---------------------------------------------------------------------

  /** The position just after the first newline at or after `j`, or the end of the text. */
  function LineEnd(c: string, j: nat): (r: nat)
    requires j <= |c|
    ensures j <= r <= |c|
    ensures r == |c| || (j < r && c[r - 1] == '\n')
    decreases |c| - j
  {
    if j == |c| then j else if c[j] == '\n' then j + 1 else LineEnd(c, j + 1)
  }

  /** A line holds no newline but, possibly, its last character. */
  lemma {:induction false} LineHasNoInnerNewline(c: string, j: nat, k: nat)
    requires j <= k && j <= |c| && k + 1 < LineEnd(c, j)
    ensures c[k] != '\n'
    decreases k - j
  {
    if j < k {
      LineHasNoInnerNewline(c, j + 1, k);
    }
  }

  /** `reader.ReadString('\n')` at position `pos`: the line with its newline, and whether the end was hit. */
  method ReadString(c: string, pos: nat) returns (line: string, eof: bool)
    ensures pos <= |c| ==> line == c[pos..LineEnd(c, pos)]
    ensures pos > |c| ==> line == []
    ensures eof <==> (line == [] || line[|line| - 1] != '\n')
  {
    if pos > |c| {
      return [], true;
    }
    var q := LineEnd(c, pos);
    line := c[pos..q];
    eof := line == [] || line[|line| - 1] != '\n';
  }

  /** The lines read from `pos` on, stopping after the first that ends at or past `chunkEnd`. */
  function LinesFrom(c: string, pos: nat, chunkEnd: int): seq<string>
    decreases |c| - pos
  {
    if pos >= |c| then []
    else
      var q := LineEnd(c, pos);
      [c[pos..q]] + (if q >= chunkEnd then [] else LinesFrom(c, q, chunkEnd))
  }

  lemma LinesFromHead(c: string, pos: nat, chunkEnd: int)
    requires pos < |c|
    ensures LinesFrom(c, pos, chunkEnd) == [c[pos..LineEnd(c, pos)]]
      + (if LineEnd(c, pos) >= chunkEnd then [] else LinesFrom(c, LineEnd(c, pos), chunkEnd))
  {
  }

  lemma LinesFromEnd(c: string, pos: nat, chunkEnd: int)
    requires pos >= |c|
    ensures LinesFrom(c, pos, chunkEnd) == []
  {
  }

  /**
   * What one `ReadString` at `pos` tells the read loop: with `handled` the
   * lines handed over so far and `all` the lines of the chunk, the line read
   * is the next one of the chunk, and the loop may stop exactly when it does.
   */
  lemma ReadStep(c: string, pos: nat, chunkEnd: int, line: string, eof: bool, handled: seq<string>, all: seq<string>)
    requires pos <= |c| ==> line == c[pos..LineEnd(c, pos)]
    requires pos > |c| ==> line == []
    requires eof <==> (line == [] || line[|line| - 1] != '\n')
    requires handled + LinesFrom(c, pos, chunkEnd) == all
    ensures (|line| > 0 && pos + |line| < chunkEnd) ==> (handled + [line]) + LinesFrom(c, pos + |line|, chunkEnd) == all
    ensures (|line| > 0 && (pos + |line| >= chunkEnd || eof)) ==> handled + [line] == all
    ensures (|line| == 0) ==> eof && handled == all
  {
    if |line| > 0 {
      assert pos < |c|;
      var q := LineEnd(c, pos);
      assert pos + |line| == q;
      LinesFromHead(c, pos, chunkEnd);
      var rest := if q >= chunkEnd then [] else LinesFrom(c, q, chunkEnd);
      AppendAssoc(handled, [line], rest);
      if eof {
        assert line[|line| - 1] == c[q - 1];
        LinesFromEnd(c, q, chunkEnd);
      }
      if q >= chunkEnd || eof {
        assert rest == [];
        assert handled + [line] + [] == handled + [line];
      }
    } else {
      LinesFromEnd(c, pos, chunkEnd);
      assert handled + [] == handled;
    }
  }

  /** The lines handed over so far followed by the lines still to read from `pos` are the lines of the chunk. */
  ghost predicate Remaining(c: string, pos: nat, chunkEnd: int, handled: seq<string>, all: seq<string>)
  {
    handled + LinesFrom(c, pos, chunkEnd) == all
  }

  /**
   * `ReadString` inside the read loop: with `handled` the lines handed over
   * so far and `all` the lines of the chunk, the line read is the next line
   * of the chunk, and the loop may stop exactly when it does.
   */
  method ReadLine(c: string, pos: nat, chunkEnd: int, ghost handled: seq<string>, ghost all: seq<string>) returns (line: string, eof: bool)
    requires Remaining(c, pos, chunkEnd, handled, all)
    ensures |line| > 0 ==> pos + |line| <= |c|
    ensures (|line| > 0 && pos + |line| < chunkEnd && !eof) ==> Remaining(c, pos + |line|, chunkEnd, handled + [line], all)
    ensures (|line| > 0 && (pos + |line| >= chunkEnd || eof)) ==> handled + [line] == all
    ensures |line| == 0 ==> eof && handled == all
  {
    line, eof := ReadString(c, pos);
    ReadStep(c, pos, chunkEnd, line, eof, handled, all);
  }

  lemma AppendAssoc<T>(a: seq<T>, b: seq<T>, d: seq<T>)
    ensures a + (b + d) == (a + b) + d
  {
  }

  /** Where a reader starts handling lines: past the rest of the line at its offset when offset > 0. */
  function StartPos(c: string, offset: nat): nat
  {
    if offset > 0 && offset < |c| then LineEnd(c, offset) else offset
  }

  /** The skip of reader.go:88-94: a reader after the first reads and drops one line. */
  method SkipPartialLine(c: string, offset: nat) returns (pos: nat)
    ensures pos == StartPos(c, offset)
  {
    pos := offset;
    if offset > 0 {
      var line, _ := ReadString(c, pos);
      if |line| > 0 {
        pos := pos + |line|;
      }
    }
  }

  /** The lines a reader with this offset and chunk size hands to its log handler. */
  function ChunkLines(c: string, offset: nat, chunkSize: nat): seq<string>
  {
    LinesFrom(c, StartPos(c, offset), offset + chunkSize)
  }

  /** The position after the last line handled by a reader that starts before `chunkEnd`. */
  function StopPos(c: string, chunkEnd: nat): nat
    requires chunkEnd > 0
  {
    if chunkEnd - 1 >= |c| then |c| else LineEnd(c, chunkEnd - 1)
  }

  lemma LineEndFrom(c: string, j: nat, k: nat)
    requires j <= |c| && j <= k < LineEnd(c, j)
    ensures LineEnd(c, k) == LineEnd(c, j)
    decreases k - j
  {
    if j < k {
      assert c[j] != '\n';
      LineEndFrom(c, j + 1, k);
    }
  }

  /**
   * A reader that starts at `pos` before its chunk end handles exactly the
   * text from `pos` to the end of the line holding the chunk's last character.
   */
  lemma {:induction false} ChunkText(c: string, pos: nat, chunkEnd: nat)
    requires pos < chunkEnd && pos < |c|
    ensures Concat(LinesFrom(c, pos, chunkEnd)) == c[pos..StopPos(c, chunkEnd)]
    decreases |c| - pos
  {
    var q := LineEnd(c, pos);
    LinesFromHead(c, pos, chunkEnd);
    if q >= chunkEnd || q == |c| {
      LastLineFrom(c, pos, chunkEnd);
      ConcatCons(c[pos..q], []);
    } else {
      ChunkText(c, q, chunkEnd);
      ConcatCons(c[pos..q], LinesFrom(c, q, chunkEnd));
      SliceSplit(c, pos, q, StopPos(c, chunkEnd));
    }
  }

  /** The line at `pos` reaches the chunk end or the end of the text: it is the last read, and ends at the stop position. */
  lemma LastLineFrom(c: string, pos: nat, chunkEnd: nat)
    requires pos < chunkEnd && pos < |c| && (LineEnd(c, pos) >= chunkEnd || LineEnd(c, pos) == |c|)
    ensures LinesFrom(c, pos, chunkEnd) == [c[pos..LineEnd(c, pos)]]
    ensures StopPos(c, chunkEnd) == LineEnd(c, pos)
  {
    var q := LineEnd(c, pos);
    if chunkEnd - 1 < |c| {
      LineEndFrom(c, pos, chunkEnd - 1);
    }
    if q < chunkEnd {
      assert LinesFrom(c, q, chunkEnd) == [];
    }
  }

  /**
   * As written, a chunk boundary that falls on the start of a line loses that
   * line: the reader before the boundary stops at it, and the reader after it
   * skips the whole line as if it were the tail of a partial one.
   */
  lemma BoundaryLineLost(c: string, pos: nat, chunkEnd: nat)
    requires pos < chunkEnd < |c| && c[chunkEnd - 1] == '\n'
    ensures Concat(LinesFrom(c, pos, chunkEnd)) == c[pos..chunkEnd]
    ensures StartPos(c, chunkEnd) == LineEnd(c, chunkEnd) > chunkEnd
  {
    ChunkText(c, pos, chunkEnd);
  }

  /** Two readers over "a\nb\n" with chunks of two characters: "b\n" reaches neither. */
  lemma BoundaryLineLostExample()
    ensures ChunkLines("a\nb\n", 0, 2) == ["a\n"]
    ensures ChunkLines("a\nb\n", 2, 2) == []
  {
    var c := "a\nb\n";
    assert LineEnd(c, 0) == 2 by {
      assert c[0] == 'a' && c[1] == '\n';
    }
    assert c[0..2] == "a\n";
    assert LineEnd(c, 2) == 4 by {
      assert c[2] == 'b' && c[3] == '\n';
    }
  }

  /**
   * As written, a line that spans a whole chunk makes two readers handle the
   * line after it: the reader of that chunk skips to the end of the long line
   * and still reads one more line, and so does the next reader.
   */
  lemma DuplicateLineExample()
    ensures ChunkLines("aaaa\nb\n", 2, 2) == ["b\n"]
    ensures ChunkLines("aaaa\nb\n", 4, 2) == ["b\n"]
  {
    var c := "aaaa\nb\n";
    assert LineEnd(c, 4) == 5 by {
      assert c[4] == '\n';
    }
    assert LineEnd(c, 2) == 5 by {
      assert c[2] == 'a' && c[3] == 'a';
    }
    assert LineEnd(c, 5) == 7 by {
      assert c[5] == 'b' && c[6] == '\n';
    }
    assert c[5..7] == "b\n";
  }

  /** The lines of all readers `0 .. n-1` with offsets `i * k`, as written. */
  function AllChunkLines(c: string, k: nat, n: nat): seq<string>
  {
    if n == 0 then [] else AllChunkLines(c, k, n - 1) + ChunkLines(c, (n - 1) * k, k)
  }

  // The corrected chunk rule: a reader handles exactly the lines that start
  // inside its chunk. A line starts inside [o, e) iff it starts at or after
  // Boundary(c, o) and before Boundary(c, e).

  /** The first line start at or after `o` (the end of the text when there is none). */
  function Boundary(c: string, o: nat): (r: nat)
    ensures r <= |c|
    ensures o <= |c| ==> o <= r
    ensures 0 < r < |c| ==> c[r - 1] == '\n'
  {
    if o == 0 then 0 else if o <= |c| then LineEnd(c, o - 1) else |c|
  }

  /** The lines that start at `pos` or later and before `chunkEnd`. */
  function LinesBefore(c: string, pos: nat, chunkEnd: int): seq<string>
    decreases |c| - pos
  {
    if pos >= |c| || pos >= chunkEnd then []
    else
      var q := LineEnd(c, pos);
      [c[pos..q]] + LinesBefore(c, q, chunkEnd)
  }

  /** The corrected reader: skip to the first line start at or after the offset, stop before the first at or after the chunk end. */
  function ChunkLinesFixed(c: string, offset: nat, chunkSize: nat): seq<string>
  {
    LinesBefore(c, Boundary(c, offset), offset + chunkSize)
  }

  lemma {:induction false} LinesBeforeText(c: string, pos: nat, chunkEnd: nat)
    requires pos < chunkEnd && pos <= |c|
    ensures pos <= Boundary(c, chunkEnd)
    ensures Concat(LinesBefore(c, pos, chunkEnd)) == c[pos..Boundary(c, chunkEnd)]
    decreases |c| - pos
  {
    if pos == |c| {
      assert LinesBefore(c, pos, chunkEnd) == [];
    } else {
      var q := LineEnd(c, pos);
      var rest := LinesBefore(c, q, chunkEnd);
      assert LinesBefore(c, pos, chunkEnd) == [c[pos..q]] + rest;
      ConcatCons(c[pos..q], rest);
      if q >= chunkEnd {
        LastLineBefore(c, pos, chunkEnd);
      } else {
        LinesBeforeText(c, q, chunkEnd);
        SliceSplit(c, pos, q, Boundary(c, chunkEnd));
      }
    }
  }

  /** The line at `pos` reaches the chunk end: it is the last, and ends at the next boundary. */
  lemma LastLineBefore(c: string, pos: nat, chunkEnd: nat)
    requires pos < chunkEnd && pos < |c| && LineEnd(c, pos) >= chunkEnd
    ensures LinesBefore(c, LineEnd(c, pos), chunkEnd) == []
    ensures Boundary(c, chunkEnd) == LineEnd(c, pos)
  {
    LineEndFrom(c, pos, chunkEnd - 1);
  }

  /** A corrected reader hands over exactly the text from its chunk's first line start to the next chunk's. */
  lemma ChunkFixedText(c: string, offset: nat, chunkEnd: nat)
    requires offset < chunkEnd
    ensures Boundary(c, offset) <= Boundary(c, chunkEnd)
    ensures Concat(ChunkLinesFixed(c, offset, chunkEnd - offset)) == c[Boundary(c, offset)..Boundary(c, chunkEnd)]
  {
    var b := Boundary(c, offset);
    if b < chunkEnd {
      LinesBeforeText(c, b, chunkEnd);
    } else {
      assert ChunkLinesFixed(c, offset, chunkEnd - offset) == [];
      LineEndFrom(c, offset - 1, chunkEnd - 1);
    }
  }

  /** The lines of all corrected readers `0 .. n-1` with offsets `i * k`. */
  function AllChunkLinesFixed(c: string, k: nat, n: nat): seq<string>
  {
    if n == 0 then [] else AllChunkLinesFixed(c, k, n - 1) + ChunkLinesFixed(c, (n - 1) * k, k)
  }

  /**
   * With the corrected rule the readers together hand over the text up to the
   * first line start at or after n * k, in order: every line that starts
   * before the end of the last chunk is handled by exactly one reader.
   */
  lemma {:induction false} FixedReadersCover(c: string, k: nat, n: nat)
    requires k > 0
    ensures Concat(AllChunkLinesFixed(c, k, n)) == c[..Boundary(c, n * k)]
  {
    if n > 0 {
      FixedReadersCover(c, k, n - 1);
      CoverNext(c, k, n);
    }
  }

  /** The step of the induction: reader n-1 extends what readers 0 .. n-2 hand over. */
  lemma CoverNext(c: string, k: nat, n: nat)
    requires k > 0 && n > 0
    requires Concat(AllChunkLinesFixed(c, k, n - 1)) == c[..Boundary(c, (n - 1) * k)]
    ensures Concat(AllChunkLinesFixed(c, k, n)) == c[..Boundary(c, n * k)]
  {
    var o := (n - 1) * k;
    NextOffset(n, k);
    assert AllChunkLinesFixed(c, k, n) == AllChunkLinesFixed(c, k, n - 1) + ChunkLinesFixed(c, o, k);
    CoverStep(c, AllChunkLinesFixed(c, k, n - 1), o, k);
  }

  lemma NextOffset(n: nat, k: nat)
    requires n > 0
    ensures n * k == (n - 1) * k + k
  {
  }

  /** One more corrected reader extends the text handed over to the next chunk's first line start. */
  lemma CoverStep(c: string, before: seq<string>, o: nat, k: nat)
    requires k > 0 && Concat(before) == c[..Boundary(c, o)]
    ensures Concat(before + ChunkLinesFixed(c, o, k)) == c[..Boundary(c, o + k)]
  {
    var e := o + k;
    ChunkFixedText(c, o, e);
    ConcatAppend(before, ChunkLinesFixed(c, o, k));
    assert c[..Boundary(c, e)] == c[..Boundary(c, o)] + c[Boundary(c, o)..Boundary(c, e)];
  }

  /** On the inputs of both findings the corrected readers hand over every line once. */
  lemma FixedExamples()
    ensures AllChunkLinesFixed("a\nb\n", 2, 2) == ["a\n", "b\n"]
    ensures AllChunkLinesFixed("aaaa\nb\n", 2, 4) == ["aaaa\n", "b\n"]
  {
    var c := "a\nb\n";
    assert LineEnd(c, 0) == 2 by {
      assert c[0] == 'a' && c[1] == '\n';
    }
    assert LineEnd(c, 1) == 2;
    assert LineEnd(c, 2) == 4 by {
      assert c[2] == 'b' && c[3] == '\n';
    }
    assert c[0..2] == "a\n" && c[2..4] == "b\n";
    var d := "aaaa\nb\n";
    assert LineEnd(d, 0) == 5 by {
      assert d[0] == 'a' && d[1] == 'a' && d[2] == 'a' && d[3] == 'a' && d[4] == '\n';
    }
    assert LineEnd(d, 1) == 5;
    assert LineEnd(d, 3) == 5;
    assert LineEnd(d, 5) == 7 by {
      assert d[5] == 'b' && d[6] == '\n';
    }
    assert d[0..5] == "aaaa\n" && d[5..7] == "b\n";
  }

  // ---------------------------------------------------------------------
  // The reader
  // ---------------------------------------------------------------------

  /** Sum of the lengths of the channel contents. */
  function Total(chs: seq<seq<Packet>>): nat
  {
    if |chs| == 0 then 0 else Total(chs[..|chs| - 1]) + |chs[|chs| - 1]|
  }

  lemma {:induction false} TotalAppendOne(chs: seq<seq<Packet>>, k: nat, p: Packet)
    requires k < |chs|
    ensures Total(chs[k := chs[k] + [p]]) == Total(chs) + 1
    decreases |chs|
  {
    var chs' := chs[k := chs[k] + [p]];
    var n := |chs| - 1;
    if k < n {
      assert chs'[..n] == chs[..n][k := chs[k] + [p]];
      TotalAppendOne(chs[..n], k, p);
    } else {
      assert chs'[..n] == chs[..n];
    }
  }

  /** The channel contents after the handler has seen `line`: its packet, if any, appended to its reductor's channel. */
  function DeliverLine(chs: seq<seq<Packet>>, line: string, id: int, path: string): (r: seq<seq<Packet>>)
    requires 0 < |chs| < Fnv.TwoTo63
    ensures |r| == |chs|
  {
    match PacketOf(line, id, path)
    case None => chs
    case Some(p) =>
      var k := Fnv.HashToRange(p.traceKey, |chs|);
      chs[k := chs[k] + [p]]
  }

  /** The channel contents after the handler has seen `lines`, in order. */
  function Deliver(chs: seq<seq<Packet>>, lines: seq<string>, id: int, path: string): (r: seq<seq<Packet>>)
    requires 0 < |chs| < Fnv.TwoTo63
    ensures |r| == |chs|
    decreases |lines|
  {
    if |lines| == 0 then chs
    else DeliverLine(Deliver(chs, lines[..|lines| - 1], id, path), lines[|lines| - 1], id, path)
  }

  /**
   * A line the grammar rejects after trimming sends nothing; otherwise exactly
   * one packet, built from the line, is appended to the channel of the
   * reductor its trace key hashes to, and no other channel changes.
   */
  lemma DeliverLineMeaning(chs: seq<seq<Packet>>, line: string, id: int, path: string)
    requires 0 < |chs| < Fnv.TwoTo63
    ensures PacketOf(line, id, path).None? ==> DeliverLine(chs, line, id, path) == chs
    ensures PacketOf(line, id, path).Some? ==>
      var p := PacketOf(line, id, path).value;
      var k := Fnv.HashToRange(p.traceKey, |chs|);
      && 0 <= k < |chs|
      && DeliverLine(chs, line, id, path)[k] == chs[k] + [p]
      && (forall j :: 0 <= j < |chs| && j != k ==> DeliverLine(chs, line, id, path)[j] == chs[j])
      && Total(DeliverLine(chs, line, id, path)) == Total(chs) + 1
  {
    if PacketOf(line, id, path).Some? {
      var p := PacketOf(line, id, path).value;
      TotalAppendOne(chs, Fnv.HashToRange(p.traceKey, |chs|), p);
    }
  }

  /** DeliverLine spelled out for the log handler. */
  lemma DeliverPacket(chs: seq<seq<Packet>>, line: string, id: int, path: string)
    requires 0 < |chs| < Fnv.TwoTo63
    ensures PacketOf(line, id, path).None? ==> DeliverLine(chs, line, id, path) == chs
    ensures PacketOf(line, id, path).Some? ==>
      var p := PacketOf(line, id, path).value;
      var k := Fnv.HashToRange(p.traceKey, |chs|);
      && DeliverLine(chs, line, id, path) == chs[k := chs[k] + [p]]
      && Total(chs[k := chs[k] + [p]]) == Total(chs) + 1
  {
    if PacketOf(line, id, path).Some? {
      var p := PacketOf(line, id, path).value;
      TotalAppendOne(chs, Fnv.HashToRange(p.traceKey, |chs|), p);
    }
  }

  lemma DeliverSnoc(chs: seq<seq<Packet>>, lines: seq<string>, line: string, id: int, path: string)
    requires 0 < |chs| < Fnv.TwoTo63
    ensures Deliver(chs, lines + [line], id, path) == DeliverLine(Deliver(chs, lines, id, path), line, id, path)
  {
    assert (lines + [line])[..|lines|] == lines;
  }

  /** Every packet sits in the channel of the reductor its trace key hashes to. */
  predicate Routed(chs: seq<seq<Packet>>)
    requires 0 < |chs| < Fnv.TwoTo63
  {
    forall k, j :: 0 <= k < |chs| && 0 <= j < |chs[k]| ==> Fnv.HashToRange(chs[k][j].traceKey, |chs|) == k
  }

  /** Routing keeps every packet with the reductor of its trace key, whatever the lines. */
  lemma {:induction false} DeliverKeepsRouted(chs: seq<seq<Packet>>, lines: seq<string>, id: int, path: string)
    requires 0 < |chs| < Fnv.TwoTo63 && Routed(chs)
    ensures Routed(Deliver(chs, lines, id, path))
    decreases |lines|
  {
    if |lines| > 0 {
      DeliverKeepsRouted(chs, lines[..|lines| - 1], id, path);
      DeliverLineKeepsRouted(Deliver(chs, lines[..|lines| - 1], id, path), lines[|lines| - 1], id, path);
    }
  }

  lemma DeliverLineKeepsRouted(chs: seq<seq<Packet>>, line: string, id: int, path: string)
    requires 0 < |chs| < Fnv.TwoTo63 && Routed(chs)
    ensures Routed(DeliverLine(chs, line, id, path))
  {
    if PacketOf(line, id, path).Some? {
      var p := PacketOf(line, id, path).value;
      var k := Fnv.HashToRange(p.traceKey, |chs|);
      var r: seq<seq<Packet>> := chs[k := chs[k] + [p]];
      assert DeliverLine(chs, line, id, path) == r;
      forall a: int, j: int | 0 <= a < |r| && 0 <= j < |r[a]|
        ensures Fnv.HashToRange(r[a][j].traceKey, |r|) == a
      {
        if a == k && j == |chs[k]| {
          assert r[a][j] == p;
        } else {
          assert r[a][j] == chs[a][j];
        }
      }
    }
  }

  /** The number of lines the handler turns into packets. */
  function Accepted(lines: seq<string>, id: int, path: string): nat
  {
    if |lines| == 0 then 0
    else Accepted(lines[..|lines| - 1], id, path) + (if PacketOf(lines[|lines| - 1], id, path).Some? then 1 else 0)
  }

  /** One packet is sent per accepted line, so the in-flight count grows by the accepted lines. */
  lemma {:induction false} DeliverCount(chs: seq<seq<Packet>>, lines: seq<string>, id: int, path: string)
    requires 0 < |chs| < Fnv.TwoTo63
    ensures Total(Deliver(chs, lines, id, path)) == Total(chs) + Accepted(lines, id, path)
    decreases |lines|
  {
    if |lines| > 0 {
      DeliverCount(chs, lines[..|lines| - 1], id, path);
      DeliverLineMeaning(Deliver(chs, lines[..|lines| - 1], id, path), lines[|lines| - 1], id, path);
    }
  }

  class Reader {
    const id: int
    const filePath: string
    const offset: nat
    const chunkSize: nat
    const numberOfReductors: nat

    /** The reader-to-reductor in-flight counter, incremented before every send. */
    var inFlight: nat
    /** What each reductor channel has been sent, in order. */
    var channels: seq<seq<Packet>>

    /** One channel per reductor, and one in-flight count per packet sent. */
    predicate Valid()
      reads this
    {
      && 0 < numberOfReductors < Fnv.TwoTo63
      && |channels| == numberOfReductors
      && inFlight == Total(channels)
    }

    constructor (id: int, filePath: string, offset: nat, chunkSize: nat, numberOfReductors: nat)
      requires 0 < numberOfReductors < Fnv.TwoTo63
      ensures Valid()
      ensures this.id == id && this.filePath == filePath && this.offset == offset
      ensures this.chunkSize == chunkSize && this.numberOfReductors == numberOfReductors
      ensures channels == seq(numberOfReductors, _ => []) && inFlight == 0
    {
      this.id := id;
      this.filePath := filePath;
      this.offset := offset;
      this.chunkSize := chunkSize;
      this.numberOfReductors := numberOfReductors;
      inFlight := 0;
      channels := seq(numberOfReductors, _ => []);
      new;
      ZeroTotal(numberOfReductors);
    }

    static lemma {:induction false} ZeroTotal(n: nat)
      ensures Total(seq<seq<Packet>>(n, _ => [])) == 0
    {
      if n > 0 {
        ZeroTotal(n - 1);
        assert seq<seq<Packet>>(n, _ => [])[..n - 1] == seq<seq<Packet>>(n - 1, _ => []);
      }
    }

    /**
     * `logHandler`: the line's packet, if the grammar accepts the trimmed
     * line, is sent to its reductor's channel (DeliverLineMeaning says what
     * that is), and the in-flight counter still counts every packet sent.
     */
    method LogHandler(line: string)
      requires Valid()
      modifies this
      ensures Valid()
      ensures channels == DeliverLine(old(channels), line, id, filePath)
    {
      var packet := MakePacket(line);
      DeliverPacket(channels, line, id, filePath);
      if packet.None? {
        return;
      }
      var pkt := packet.value;
      var index := Fnv.HashToRange(pkt.traceKey, numberOfReductors);
      inFlight := inFlight + 1;
      channels := channels[index := channels[index] + [pkt]];
    }

    /** The packet `logHandler` builds from a line: None when the trimmed line does not match the grammar. */
    method MakePacket(line: string) returns (packet: Option<Packet>)
      ensures packet == PacketOf(line, id, filePath)
    {
      var trimmed := Trim(line, GoSpace);
      var match_ := FindSubmatch(trimmed);
      if match_.None? {
        return None;
      }
      var m := match_.value;
      var kv := ParseKv(m.kv);
      var event := TraceEvent(GoAtoi(m.ts), GoAtoi(m.pid), GoAtoi(m.tid), m.proc, m.status, m.operand, kv);
      packet := Some(Packet(id, filePath, TraceKey(event.pid, event.tid, event.proc, event.event), event, trimmed));
    }

    /** `start` over the file text `c`: every line of the chunk goes through the log handler. */
    method Start(c: string)
      requires Valid()
      modifies this
      ensures Valid()
      ensures channels == Deliver(old(channels), ChunkLines(c, offset, chunkSize), id, filePath)
    {
      var chunkEnd := offset + chunkSize;
      var currentPos := SkipPartialLine(c, offset);
      ghost var handled: seq<string> := [];
      ghost var all := ChunkLines(c, offset, chunkSize);
      ghost var chs0 := channels;
      assert Remaining(c, currentPos, chunkEnd, handled, all);
      var done := false;
      while !done
        invariant Valid() && |chs0| == |channels|
        invariant channels == Deliver(chs0, handled, id, filePath)
        invariant !done ==> Remaining(c, currentPos, chunkEnd, handled, all)
        invariant done ==> handled == all
        decreases if currentPos <= |c| then |c| - currentPos else 0, !done
      {
        currentPos, done, handled := ReadAndHandle(c, currentPos, chunkEnd, handled, all, chs0);
      }
    }

    /** One turn of the read loop: read a line, hand it to the log handler, and stop after the chunk end or at the end of the file. */
    method ReadAndHandle(c: string, pos: nat, chunkEnd: nat, ghost handled: seq<string>, ghost all: seq<string>, ghost chs0: seq<seq<Packet>>)
        returns (next: nat, done: bool, ghost handled': seq<string>)
      requires Valid() && |chs0| == |channels|
      requires channels == Deliver(chs0, handled, id, filePath)
      requires Remaining(c, pos, chunkEnd, handled, all)
      modifies this
      ensures Valid() && channels == Deliver(chs0, handled', id, filePath)
      ensures done ==> handled' == all
      ensures !done ==> Remaining(c, next, chunkEnd, handled', all) && pos < next
      ensures next == pos || pos < next <= |c|
    {
      var line, eof := ReadLine(c, pos, chunkEnd, handled, all);
      if |line| == 0 {
        return pos, true, handled;
      }
      next := pos + |line|;
      DeliverSnoc(chs0, handled, line, id, filePath);
      LogHandler(line);
      handled' := handled + [line];
      done := next >= chunkEnd || eof;
    }
  }
}
