/**
 * The trace-line grammar of the Python readers (src/rexfsm.py):
 *
 *   <time> \s+ {pid=<pid> \s+ tid=<tid> \s+ proc=<proc>}{<EN|EX> \s+ <operand>}{<spec>} $
 *
 * with time, pid and tid made of digits, proc a non-empty text without `}`,
 * operand a non-empty word over [a-zA-Z0-9_] and spec any text without `}`.
 * `re.match` anchors the pattern at the start and `$` at the end or just before
 * one final newline. The recogniser is written out by hand, one segment of the
 * pattern per function, and is proved to be the exact inverse of the function
 * that lays a line out from its captured groups and its uncaptured spaces.
 */
module RexFsm {
  import opened Wrappers
  import opened Strings

  /** The named groups of a successful match. */
  datatype LineMatch = LineMatch(
    time: string, pid: string, tid: string, proc: string,
    status: string, operand: string, spec: string)

  /** What the pattern matches without capturing: the four runs of spaces and the line ending. */
  datatype Gaps = Gaps(afterTime: string, afterPid: string, afterTid: string, afterStatus: string, ending: string)

  /** Groups that the pattern can capture. */
  predicate WellFormed(m: LineMatch)
  {
    && |m.time| > 0 && AllIn(m.time, Digit)
    && |m.pid| > 0 && AllIn(m.pid, Digit)
    && |m.tid| > 0 && AllIn(m.tid, Digit)
    && |m.proc| > 0 && AllIn(m.proc, NotBrace)
    && (m.status == "EN" || m.status == "EX")
    && |m.operand| > 0 && AllIn(m.operand, WordChar)
    && AllIn(m.spec, NotBrace)
  }

  /** Runs of spaces the pattern's `\s+` accept, and the endings `$` accepts. */
  predicate ValidGaps(g: Gaps)
  {
    && |g.afterTime| > 0 && AllIn(g.afterTime, PySpace)
    && |g.afterPid| > 0 && AllIn(g.afterPid, PySpace)
    && |g.afterTid| > 0 && AllIn(g.afterTid, PySpace)
    && |g.afterStatus| > 0 && AllIn(g.afterStatus, PySpace)
    && (g.ending == "" || g.ending == "\n")
  }

  // ---------------------------------------------------------------------
  // Laying a line out from its parts, one segment of the pattern at a time
  // ---------------------------------------------------------------------

  function OperandOnward(m: LineMatch, g: Gaps): string
  {
    m.operand + ("}{" + (m.spec + ("}" + g.ending)))
  }

  function StatusOnward(m: LineMatch, g: Gaps): string
  {
    m.status + (g.afterStatus + OperandOnward(m, g))
  }

  function ProcOnward(m: LineMatch, g: Gaps): string
  {
    "proc=" + (m.proc + ("}{" + StatusOnward(m, g)))
  }

  function TidOnward(m: LineMatch, g: Gaps): string
  {
    "tid=" + (m.tid + (g.afterTid + ProcOnward(m, g)))
  }

  function PidOnward(m: LineMatch, g: Gaps): string
  {
    "{pid=" + (m.pid + (g.afterPid + TidOnward(m, g)))
  }

  /** The text of a trace line with the given groups and spaces. */
  function ComposeLine(m: LineMatch, g: Gaps): string
  {
    m.time + (g.afterTime + PidOnward(m, g))
  }

  // ---------------------------------------------------------------------
  // Recognising a line
  // ---------------------------------------------------------------------

  // Each segment recogniser fills its own groups into the match found so far.

  function MatchOperandOnward(s: string, acc: (LineMatch, Gaps)): Option<(LineMatch, Gaps)>
  {
    var op :- Run(s, WordChar, 1);
    var r1 :- Lit(op.1, "}{");
    var sp :- Run(r1, NotBrace, 0);
    var r2 :- Lit(sp.1, "}");
    if r2 == "" || r2 == "\n" then
      Some((acc.0.(operand := op.0, spec := sp.0), acc.1.(ending := r2)))
    else None
  }

  function MatchStatusOnward(s: string, acc: (LineMatch, Gaps)): Option<(LineMatch, Gaps)>
  {
    var st :- Status(s);
    var w :- Run(st.1, PySpace, 1);
    MatchOperandOnward(w.1, (acc.0.(status := st.0), acc.1.(afterStatus := w.0)))
  }

  function MatchProcOnward(s: string, acc: (LineMatch, Gaps)): Option<(LineMatch, Gaps)>
  {
    var r1 :- Lit(s, "proc=");
    var p :- Run(r1, NotBrace, 1);
    var r2 :- Lit(p.1, "}{");
    MatchStatusOnward(r2, (acc.0.(proc := p.0), acc.1))
  }

  function MatchTidOnward(s: string, acc: (LineMatch, Gaps)): Option<(LineMatch, Gaps)>
  {
    var r1 :- Lit(s, "tid=");
    var td :- Run(r1, Digit, 1);
    var w :- Run(td.1, PySpace, 1);
    MatchProcOnward(w.1, (acc.0.(tid := td.0), acc.1.(afterTid := w.0)))
  }

  function MatchPidOnward(s: string, acc: (LineMatch, Gaps)): Option<(LineMatch, Gaps)>
  {
    var r1 :- Lit(s, "{pid=");
    var pd :- Run(r1, Digit, 1);
    var w :- Run(pd.1, PySpace, 1);
    MatchTidOnward(w.1, (acc.0.(pid := pd.0), acc.1.(afterPid := w.0)))
  }

  const NoGroups := LineMatch("", "", "", "", "", "", "")
  const NoGaps := Gaps("", "", "", "", "")

  /** The groups and spaces of a matching line. */
  function MatchLine(s: string): Option<(LineMatch, Gaps)>
  {
    var tm :- Run(s, Digit, 1);
    var w :- Run(tm.1, PySpace, 1);
    MatchPidOnward(w.1, (NoGroups.(time := tm.0), NoGaps.(afterTime := w.0)))
  }

  /** `match_string`: the groups of the line, or None when the pattern does not match. */
  function MatchString(input: string): Option<LineMatch>
  {
    match MatchLine(input)
    case Some(mg) => Some(mg.0)
    case None => None
  }

  // ---------------------------------------------------------------------
  // Every well-formed layout is recognised as what it was laid out from
  // ---------------------------------------------------------------------

  lemma OperandOnwardMatched(m: LineMatch, g: Gaps, acc: (LineMatch, Gaps))
    requires |m.operand| > 0 && AllIn(m.operand, WordChar) && AllIn(m.spec, NotBrace)
    requires g.ending == "" || g.ending == "\n"
    requires acc.0.(operand := m.operand, spec := m.spec) == m && acc.1.(ending := g.ending) == g
    ensures MatchOperandOnward(OperandOnward(m, g), acc) == Some((m, g))
  {
    RunOfConcat(m.operand, "}{" + (m.spec + ("}" + g.ending)), WordChar, 1);
    LitOfConcat("}{", m.spec + ("}" + g.ending));
    RunOfConcat(m.spec, "}" + g.ending, NotBrace, 0);
    LitOfConcat("}", g.ending);
  }

  lemma StatusOnwardMatched(m: LineMatch, g: Gaps, acc: (LineMatch, Gaps))
    requires (m.status == "EN" || m.status == "EX") && |g.afterStatus| > 0 && AllIn(g.afterStatus, PySpace)
    requires |m.operand| > 0 && AllIn(m.operand, WordChar) && AllIn(m.spec, NotBrace)
    requires g.ending == "" || g.ending == "\n"
    requires acc.0.(status := m.status, operand := m.operand, spec := m.spec) == m
    requires acc.1.(afterStatus := g.afterStatus, ending := g.ending) == g
    ensures MatchStatusOnward(StatusOnward(m, g), acc) == Some((m, g))
  {
    var tail := OperandOnward(m, g);
    var rest := g.afterStatus + tail;
    LitOfConcat(m.status, rest);
    if m.status == "EX" {
      assert (m.status + rest)[1] == 'X';
    }
    assert Status(m.status + rest) == Some((m.status, rest));
    assert tail[0] == m.operand[0];
    RunOfConcat(g.afterStatus, tail, PySpace, 1);
    OperandOnwardMatched(m, g, (acc.0.(status := m.status), acc.1.(afterStatus := g.afterStatus)));
  }

  lemma ProcOnwardMatched(m: LineMatch, g: Gaps, acc: (LineMatch, Gaps))
    requires |m.proc| > 0 && AllIn(m.proc, NotBrace)
    requires (m.status == "EN" || m.status == "EX") && |g.afterStatus| > 0 && AllIn(g.afterStatus, PySpace)
    requires |m.operand| > 0 && AllIn(m.operand, WordChar) && AllIn(m.spec, NotBrace)
    requires g.ending == "" || g.ending == "\n"
    requires acc.0.(proc := m.proc, status := m.status, operand := m.operand, spec := m.spec) == m
    requires acc.1.(afterStatus := g.afterStatus, ending := g.ending) == g
    ensures MatchProcOnward(ProcOnward(m, g), acc) == Some((m, g))
  {
    var tail := StatusOnward(m, g);
    LitOfConcat("proc=", m.proc + ("}{" + tail));
    RunOfConcat(m.proc, "}{" + tail, NotBrace, 1);
    LitOfConcat("}{", tail);
    StatusOnwardMatched(m, g, (acc.0.(proc := m.proc), acc.1));
  }

  lemma TidOnwardMatched(m: LineMatch, g: Gaps, acc: (LineMatch, Gaps))
    requires WellFormed(m) && ValidGaps(g)
    requires acc.0.(tid := m.tid, proc := m.proc, status := m.status, operand := m.operand, spec := m.spec) == m
    requires acc.1.(afterTid := g.afterTid, afterStatus := g.afterStatus, ending := g.ending) == g
    ensures MatchTidOnward(TidOnward(m, g), acc) == Some((m, g))
  {
    var tail := ProcOnward(m, g);
    LitOfConcat("tid=", m.tid + (g.afterTid + tail));
    RunOfConcat(m.tid, g.afterTid + tail, Digit, 1);
    RunOfConcat(g.afterTid, tail, PySpace, 1);
    ProcOnwardMatched(m, g, (acc.0.(tid := m.tid), acc.1.(afterTid := g.afterTid)));
  }

  lemma PidOnwardMatched(m: LineMatch, g: Gaps, acc: (LineMatch, Gaps))
    requires WellFormed(m) && ValidGaps(g)
    requires acc.0.(pid := m.pid, tid := m.tid, proc := m.proc, status := m.status, operand := m.operand, spec := m.spec) == m
    requires acc.1.(afterPid := g.afterPid, afterTid := g.afterTid, afterStatus := g.afterStatus, ending := g.ending) == g
    ensures MatchPidOnward(PidOnward(m, g), acc) == Some((m, g))
  {
    var tail := TidOnward(m, g);
    LitOfConcat("{pid=", m.pid + (g.afterPid + tail));
    RunOfConcat(m.pid, g.afterPid + tail, Digit, 1);
    RunOfConcat(g.afterPid, tail, PySpace, 1);
    TidOnwardMatched(m, g, (acc.0.(pid := m.pid), acc.1.(afterPid := g.afterPid)));
  }

  /** Every well-formed line is recognised, with exactly the groups and spaces it was laid out from. */
  lemma MatchCompose(m: LineMatch, g: Gaps)
    requires WellFormed(m) && ValidGaps(g)
    ensures MatchLine(ComposeLine(m, g)) == Some((m, g))
  {
    var tail := PidOnward(m, g);
    RunOfConcat(m.time, g.afterTime + tail, Digit, 1);
    RunOfConcat(g.afterTime, tail, PySpace, 1);
    PidOnwardMatched(m, g, (NoGroups.(time := m.time), NoGaps.(afterTime := g.afterTime)));
  }

  // ---------------------------------------------------------------------
  // Whatever is recognised is a well-formed layout
  // ---------------------------------------------------------------------

  lemma OperandOnwardSound(s: string, acc: (LineMatch, Gaps))
    requires MatchOperandOnward(s, acc).Some?
    ensures var r := MatchOperandOnward(s, acc).value;
      && |r.0.operand| > 0 && AllIn(r.0.operand, WordChar) && AllIn(r.0.spec, NotBrace)
      && (r.1.ending == "" || r.1.ending == "\n")
      && r.0.(operand := acc.0.operand, spec := acc.0.spec) == acc.0
      && r.1.(ending := acc.1.ending) == acc.1
      && OperandOnward(r.0, r.1) == s
  {
  }

  lemma StatusOnwardSound(s: string, acc: (LineMatch, Gaps))
    requires MatchStatusOnward(s, acc).Some?
    ensures var r := MatchStatusOnward(s, acc).value;
      && (r.0.status == "EN" || r.0.status == "EX") && |r.1.afterStatus| > 0 && AllIn(r.1.afterStatus, PySpace)
      && |r.0.operand| > 0 && AllIn(r.0.operand, WordChar) && AllIn(r.0.spec, NotBrace)
      && (r.1.ending == "" || r.1.ending == "\n")
      && r.0.(status := acc.0.status, operand := acc.0.operand, spec := acc.0.spec) == acc.0
      && r.1.(afterStatus := acc.1.afterStatus, ending := acc.1.ending) == acc.1
      && StatusOnward(r.0, r.1) == s
  {
    var st := Status(s).value;
    var w := Run(st.1, PySpace, 1).value;
    OperandOnwardSound(w.1, (acc.0.(status := st.0), acc.1.(afterStatus := w.0)));
  }

  lemma ProcOnwardSound(s: string, acc: (LineMatch, Gaps))
    requires MatchProcOnward(s, acc).Some?
    ensures var r := MatchProcOnward(s, acc).value;
      && |r.0.proc| > 0 && AllIn(r.0.proc, NotBrace)
      && (r.0.status == "EN" || r.0.status == "EX") && |r.1.afterStatus| > 0 && AllIn(r.1.afterStatus, PySpace)
      && |r.0.operand| > 0 && AllIn(r.0.operand, WordChar) && AllIn(r.0.spec, NotBrace)
      && (r.1.ending == "" || r.1.ending == "\n")
      && r.0.(proc := acc.0.proc, status := acc.0.status, operand := acc.0.operand, spec := acc.0.spec) == acc.0
      && r.1.(afterStatus := acc.1.afterStatus, ending := acc.1.ending) == acc.1
      && ProcOnward(r.0, r.1) == s
  {
    var r1 := Lit(s, "proc=").value;
    var p := Run(r1, NotBrace, 1).value;
    var r2 := Lit(p.1, "}{").value;
    StatusOnwardSound(r2, (acc.0.(proc := p.0), acc.1));
  }

  lemma TidOnwardSound(s: string, acc: (LineMatch, Gaps))
    requires MatchTidOnward(s, acc).Some?
    ensures var r := MatchTidOnward(s, acc).value;
      && |r.0.tid| > 0 && AllIn(r.0.tid, Digit) && |r.1.afterTid| > 0 && AllIn(r.1.afterTid, PySpace)
      && |r.0.proc| > 0 && AllIn(r.0.proc, NotBrace)
      && (r.0.status == "EN" || r.0.status == "EX") && |r.1.afterStatus| > 0 && AllIn(r.1.afterStatus, PySpace)
      && |r.0.operand| > 0 && AllIn(r.0.operand, WordChar) && AllIn(r.0.spec, NotBrace)
      && (r.1.ending == "" || r.1.ending == "\n")
      && r.0.(tid := acc.0.tid, proc := acc.0.proc, status := acc.0.status, operand := acc.0.operand, spec := acc.0.spec) == acc.0
      && r.1.(afterTid := acc.1.afterTid, afterStatus := acc.1.afterStatus, ending := acc.1.ending) == acc.1
      && TidOnward(r.0, r.1) == s
  {
    var r1 := Lit(s, "tid=").value;
    var td := Run(r1, Digit, 1).value;
    var w := Run(td.1, PySpace, 1).value;
    ProcOnwardSound(w.1, (acc.0.(tid := td.0), acc.1.(afterTid := w.0)));
  }

  lemma PidOnwardSound(s: string, acc: (LineMatch, Gaps))
    requires MatchPidOnward(s, acc).Some?
    ensures var r := MatchPidOnward(s, acc).value;
      && |r.0.pid| > 0 && AllIn(r.0.pid, Digit) && |r.1.afterPid| > 0 && AllIn(r.1.afterPid, PySpace)
      && |r.0.tid| > 0 && AllIn(r.0.tid, Digit) && |r.1.afterTid| > 0 && AllIn(r.1.afterTid, PySpace)
      && |r.0.proc| > 0 && AllIn(r.0.proc, NotBrace)
      && (r.0.status == "EN" || r.0.status == "EX") && |r.1.afterStatus| > 0 && AllIn(r.1.afterStatus, PySpace)
      && |r.0.operand| > 0 && AllIn(r.0.operand, WordChar) && AllIn(r.0.spec, NotBrace)
      && (r.1.ending == "" || r.1.ending == "\n")
      && r.0.time == acc.0.time && r.1.afterTime == acc.1.afterTime
      && PidOnward(r.0, r.1) == s
  {
    var r1 := Lit(s, "{pid=").value;
    var pd := Run(r1, Digit, 1).value;
    var w := Run(pd.1, PySpace, 1).value;
    TidOnwardSound(w.1, (acc.0.(pid := pd.0), acc.1.(afterPid := w.0)));
  }

  /** Whatever is recognised is a well-formed line laid out from the groups and spaces returned. */
  lemma MatchSound(s: string)
    requires MatchLine(s).Some?
    ensures WellFormed(MatchLine(s).value.0) && ValidGaps(MatchLine(s).value.1)
    ensures ComposeLine(MatchLine(s).value.0, MatchLine(s).value.1) == s
  {
    var tm := Run(s, Digit, 1).value;
    var w := Run(tm.1, PySpace, 1).value;
    PidOnwardSound(w.1, (NoGroups.(time := tm.0), NoGaps.(afterTime := w.0)));
  }

  /** The pattern matches a line iff the line can be laid out from well-formed groups and spaces. */
  lemma MatchIffComposed(s: string)
    ensures MatchString(s).Some? <==> exists m, g :: WellFormed(m) && ValidGaps(g) && ComposeLine(m, g) == s
  {
    if MatchString(s).Some? {
      MatchSound(s);
      var mg := MatchLine(s).value;
      assert WellFormed(mg.0) && ValidGaps(mg.1) && ComposeLine(mg.0, mg.1) == s;
    }
    if exists m, g :: WellFormed(m) && ValidGaps(g) && ComposeLine(m, g) == s {
      var m, g :| WellFormed(m) && ValidGaps(g) && ComposeLine(m, g) == s;
      MatchCompose(m, g);
    }
  }

  /** The decomposition is unique: two layouts of the same line have the same groups and spaces. */
  lemma DecompositionUnique(m1: LineMatch, g1: Gaps, m2: LineMatch, g2: Gaps)
    requires WellFormed(m1) && ValidGaps(g1) && WellFormed(m2) && ValidGaps(g2)
    requires ComposeLine(m1, g1) == ComposeLine(m2, g2)
    ensures m1 == m2 && g1 == g2
  {
    MatchCompose(m1, g1);
    MatchCompose(m2, g2);
  }

  predicate SuffixOf(t: string, s: string)
  {
    |t| <= |s| && s[|s| - |t|..] == t
  }

  lemma SuffixStep(t: string, a: string, x: string)
    requires SuffixOf(t, x)
    ensures SuffixOf(t, a + x)
  {
    assert (a + x)[|a + x| - |t|..] == x[|x| - |t|..];
  }

  /** Every layout ends with the closing brace of the spec group and the line ending. */
  lemma ComposeEndsWithClose(m: LineMatch, g: Gaps)
    ensures SuffixOf("}" + g.ending, ComposeLine(m, g))
  {
    var t := "}" + g.ending;
    assert SuffixOf(t, t);
    SuffixStep(t, m.spec, t);
    SuffixStep(t, "}{", m.spec + t);
    SuffixStep(t, m.operand, "}{" + (m.spec + t));
    SuffixStep(t, g.afterStatus, OperandOnward(m, g));
    SuffixStep(t, m.status, g.afterStatus + OperandOnward(m, g));
    SuffixStep(t, "}{", StatusOnward(m, g));
    SuffixStep(t, m.proc, "}{" + StatusOnward(m, g));
    SuffixStep(t, "proc=", m.proc + ("}{" + StatusOnward(m, g)));
    SuffixStep(t, g.afterTid, ProcOnward(m, g));
    SuffixStep(t, m.tid, g.afterTid + ProcOnward(m, g));
    SuffixStep(t, "tid=", m.tid + (g.afterTid + ProcOnward(m, g)));
    SuffixStep(t, g.afterPid, TidOnward(m, g));
    SuffixStep(t, m.pid, g.afterPid + TidOnward(m, g));
    SuffixStep(t, "{pid=", m.pid + (g.afterPid + TidOnward(m, g)));
    SuffixStep(t, g.afterTime, PidOnward(m, g));
    SuffixStep(t, m.time, g.afterTime + PidOnward(m, g));
  }

  /** `$` admits only one final newline: a matching line ends in `}` or `}\n`. */
  lemma MatchEnding(s: string)
    requires MatchString(s).Some?
    ensures (|s| >= 1 && s[|s| - 1] == '}') || (|s| >= 2 && s[|s| - 2..] == "}\n")
  {
    var mg := MatchLine(s).value;
    MatchSound(s);
    ComposeEndsWithClose(mg.0, mg.1);
    ClosingSuffix(s, mg.1.ending);
  }

  lemma ClosingSuffix(s: string, e: string)
    requires e == "" || e == "\n"
    requires SuffixOf("}" + e, s)
    ensures (|s| >= 1 && s[|s| - 1] == '}') || (|s| >= 2 && s[|s| - 2..] == "}\n")
  {
    if e == "" {
      assert s[|s| - 1..] == "}";
    }
  }

  /** MatchString returns the groups of every well-formed layout. */
  lemma MatchStringCompose(m: LineMatch, g: Gaps)
    requires WellFormed(m) && ValidGaps(g)
    ensures MatchString(ComposeLine(m, g)) == Some(m)
  {
    MatchCompose(m, g);
  }
}
