/**
 * `pair_events` of timeline.py: ENTER and EXIT events of one thread,
 * operand and fd are paired, and a timeline row is kept only for files whose
 * name contains "/root".
 */
module Timeline {
  import opened Wrappers
  import opened Strings
  import opened Json
  import opened Pairing

  const Keyword: string := "/root"

  /** `(tid, op, fd)`. */
  type Key = (JVal, JVal, JVal)

  /** A row of the timeline frame; `latencyUs` is the EXIT's latency passed through int(). */
  datatype Row = Row(operand: JVal, fname: JVal, start: JVal, end: JVal, latencyUs: int)

  /** The key and kind of an event; None where `ev["tid"]`, `ev["operand"]`, `ev["details"]["fd"]` or `ev["event_type"]` raises. */
  function Classify(ev: JVal): Option<(Key, Kind)>
  {
    var tid := Get(ev, "tid");
    var op := Get(ev, "operand");
    var fd := Get2(ev, "details", "fd");
    var et := Get(ev, "event_type");
    if tid.None? || op.None? || fd.None? || et.None? then None
    else Some(((tid.value, op.value, fd.value), EventKind(et.value)))
  }

  /** An ENTER stores the whole event. */
  function Whole(ev: JVal): JVal
  {
    ev
  }

  /** The row of a paired EXIT: skipped unless its fname contains the keyword. */
  function MakeRow(en: JVal, ev: JVal, k: Key): Outcome<Row>
  {
    match Get2(ev, "details", "fname")
    case None => Fail
    case Some(fname) =>
      match ContainsOp(Keyword, fname)
      case None => Fail
      case Some(hit) =>
        if !hit then Skip
        else
          var start := Get(en, "timestamp");
          var end := Get(ev, "timestamp");
          var latency := Get2(ev, "details", "latency");
          if start.None? || end.None? || latency.None? || PyInt(latency.value).None? then Fail
          else Emit(Row(k.1, fname, start.value, end.value, PyInt(latency.value).value))
  }

  /** `pair_events` over the decoded lines of the log, in file order; None where it raises. */
  method PairEvents(evs: seq<JVal>) returns (rows: Option<seq<Row>>)
    ensures rows == RunRows(evs, Classify, Whole, MakeRow)
  {
    var pending: map<Key, JVal> := map[];
    var acc: seq<Row> := [];
    var i := 0;
    while i < |evs|
      invariant 0 <= i <= |evs|
      invariant Pairing.Run(evs[..i], Classify, Whole, MakeRow) == Some(State(pending, acc))
    {
      RunStep(evs, i, Classify, Whole, MakeRow, State(pending, acc));
      var ev := evs[i];
      var tid := Get(ev, "tid");
      var op := Get(ev, "operand");
      var fd := Get2(ev, "details", "fd");
      var et := Get(ev, "event_type");
      if tid.None? || op.None? || fd.None? || et.None? {
        FailSticks(evs, i + 1, Classify, Whole, MakeRow);
        return None;
      }
      var key := (tid.value, op.value, fd.value);
      if et.value == JStr("ENTER") {
        pending := pending[key := ev];
        i := i + 1;
        continue;
      }
      if et.value == JStr("EXIT") && key in pending {
        var en := pending[key];
        pending := pending - {key};
        var fname := Get2(ev, "details", "fname");
        var hit := if fname.Some? then ContainsOp(Keyword, fname.value) else None;
        if hit.None? {
          FailSticks(evs, i + 1, Classify, Whole, MakeRow);
          return None;
        }
        if hit.value {
          var start := Get(en, "timestamp");
          var end := Get(ev, "timestamp");
          var latency := Get2(ev, "details", "latency");
          var latencyUs := if latency.Some? then PyInt(latency.value) else None;
          if start.None? || end.None? || latencyUs.None? {
            FailSticks(evs, i + 1, Classify, Whole, MakeRow);
            return None;
          }
          acc := acc + [Row(op.value, fname.value, start.value, end.value, latencyUs.value)];
        }
      }
      i := i + 1;
    }
    assert evs[..i] == evs;
    return Some(acc);
  }

  /**
   * What a row says about the ENTER and the EXIT it pairs: the operand of
   * both, the EXIT's fname (a string containing "/root", or an object with
   * that key), the ENTER's and
   * the EXIT's timestamps, and the EXIT's latency read with int().
   */
  predicate RowFacts(en: JVal, ex: JVal, r: Row)
  {
    && Get(en, "operand") == Some(r.operand) && Get(ex, "operand") == Some(r.operand)
    && Get2(ex, "details", "fname") == Some(r.fname)
    && ContainsOp(Keyword, r.fname) == Some(true)
    && Get(en, "timestamp") == Some(r.start) && Get(ex, "timestamp") == Some(r.end)
    && Get2(ex, "details", "latency").Some?
    && PyInt(Get2(ex, "details", "latency").value) == Some(r.latencyUs)
  }

  /** The row built for an ENTER and an EXIT of the same key states those facts. */
  lemma MakeRowMeaning(en: JVal, ex: JVal, r: Row)
    requires Classify(en).Some? && Classify(ex).Some? && Classify(en).value.0 == Classify(ex).value.0
    requires MakeRow(en, ex, Classify(ex).value.0) == Emit(r)
    ensures RowFacts(en, ex, r)
  {
  }

  /** Every row comes from an EXIT and an earlier ENTER with the same tid, operand and fd, and states RowFacts of them. */
  lemma RowsMeaning(evs: seq<JVal>, n: nat)
    requires RunRows(evs, Classify, Whole, MakeRow).Some?
    requires n < |RunRows(evs, Classify, Whole, MakeRow).value|
    ensures exists i, j ::
        && 0 <= i < j < |evs|
        && Classify(evs[i]).Some? && Classify(evs[i]).value.1 == Enter
        && Classify(evs[j]).Some? && Classify(evs[j]).value.1 == Exit
        && Classify(evs[i]).value.0 == Classify(evs[j]).value.0
        && RowFacts(evs[i], evs[j], RunRows(evs, Classify, Whole, MakeRow).value[n])
  {
    RowsProvenance(evs, Classify, Whole, MakeRow);
    var rows := Pairing.Run(evs, Classify, Whole, MakeRow).value.rows;
    assert Emitted(evs, Classify, Whole, MakeRow, rows[n]);
    var i, j :| EmittedBy(evs, Classify, Whole, MakeRow, rows[n], i, j);
    MakeRowMeaning(evs[i], evs[j], rows[n]);
  }

  /** An EXIT that finds its key pending pops it even when its fname lacks the keyword and no row is added. */
  lemma FilteredExitPops(st: State<Key, JVal, Row>, ev: JVal, s: string)
    requires Classify(ev).Some? && Classify(ev).value.1 == Exit && Classify(ev).value.0 in st.pending
    requires Get2(ev, "details", "fname") == Some(JStr(s)) && !Contains(s, Keyword)
    ensures Step(st, ev, Classify, Whole, MakeRow) == Some(State(st.pending - {Classify(ev).value.0}, st.rows))
  {
  }

  /** An event without `details.fd` raises, whatever its type. */
  lemma MissingFdRaises(st: State<Key, JVal, Row>, ev: JVal)
    requires Get2(ev, "details", "fd").None?
    ensures Step(st, ev, Classify, Whole, MakeRow).None?
  {
  }

  /** A later ENTER with the same key replaces the pending one and adds no row. */
  lemma EnterOverwrites(st: State<Key, JVal, Row>, ev: JVal)
    requires Classify(ev).Some? && Classify(ev).value.1 == Enter
    ensures Step(st, ev, Classify, Whole, MakeRow) == Some(State(st.pending[Classify(ev).value.0 := ev], st.rows))
  {
  }
}
