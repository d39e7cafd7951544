/**
 * `pair_events` of files.py: ENTER and EXIT events of one thread, operand
 * and fd are paired, and every paired EXIT gives one row for the per-file
 * latency distribution.
 */
module Files {
  import opened Wrappers
  import opened Json
  import opened Pairing

  /** `(tid, operand, fd)`. */
  type Key = (JVal, JVal, JVal)

  /** A row; `latencyNs` is int() of the EXIT's latency, which the script then divides by 1000.0. */
  datatype Row = Row(fname: JVal, operand: JVal, latencyNs: int)

  /** The key and kind of an event; None where one of the lookups raises. */
  function Classify(ev: JVal): Option<(Key, Kind)>
  {
    var tid := Get(ev, "tid");
    var op := Get(ev, "operand");
    var fd := Get2(ev, "details", "fd");
    var et := Get(ev, "event_type");
    if tid.None? || op.None? || fd.None? || et.None? then None
    else Some(((tid.value, op.value, fd.value), EventKind(et.value)))
  }

  function Whole(ev: JVal): JVal
  {
    ev
  }

  /** The row of a paired EXIT: its fname, its operand and its latency. */
  function MakeRow(en: JVal, ev: JVal, k: Key): Outcome<Row>
  {
    var fname := Get2(ev, "details", "fname");
    var op := Get(ev, "operand");
    var latency := Get2(ev, "details", "latency");
    if fname.None? || op.None? || latency.None? || PyInt(latency.value).None? then Fail
    else Emit(Row(fname.value, op.value, PyInt(latency.value).value))
  }

  /** `pair_events` over the decoded lines of the log, in file order; None where it raises. */
  method PairEvents(evs: seq<JVal>) returns (rows: Option<seq<Row>>)
    ensures rows == RunRows(evs, Classify, Whole, MakeRow)
  {
    var pending: map<Key, JVal> := map[];
    var acc: seq<Row> := [];
    var i := 0;
    while i < |evs|
      invariant 0 <= i <= |evs|
      invariant Pairing.Run(evs[..i], Classify, Whole, MakeRow) == Some(State(pending, acc))
    {
      RunStep(evs, i, Classify, Whole, MakeRow, State(pending, acc));
      var ev := evs[i];
      var tid := Get(ev, "tid");
      var op := Get(ev, "operand");
      var fd := Get2(ev, "details", "fd");
      var et := Get(ev, "event_type");
      if tid.None? || op.None? || fd.None? || et.None? {
        FailSticks(evs, i + 1, Classify, Whole, MakeRow);
        return None;
      }
      var key := (tid.value, op.value, fd.value);
      if et.value == JStr("ENTER") {
        pending := pending[key := ev];
        i := i + 1;
        continue;
      }
      if et.value == JStr("EXIT") && key in pending {
        pending := pending - {key};
        var fname := Get2(ev, "details", "fname");
        var latency := Get2(ev, "details", "latency");
        var latencyNs := if latency.Some? then PyInt(latency.value) else None;
        if fname.None? || latencyNs.None? {
          FailSticks(evs, i + 1, Classify, Whole, MakeRow);
          return None;
        }
        acc := acc + [Row(fname.value, op.value, latencyNs.value)];
      }
      i := i + 1;
    }
    assert evs[..i] == evs;
    return Some(acc);
  }

  /** Rows are never skipped, so a run that does not raise has exactly one row per matched EXIT. */
  lemma RowPerMatchedExit(evs: seq<JVal>)
    requires RunRows(evs, Classify, Whole, MakeRow).Some?
    ensures |RunRows(evs, Classify, Whole, MakeRow).value| == MatchedCount<JVal, Key, JVal, Row>(evs, Classify)
  {
    forall v, e, k ensures !MakeRow(v, e, k).Skip? { }
    RowPerMatch(evs, Classify, Whole, MakeRow);
  }

  /** A row's fname and operand are the EXIT's, and its latency is the EXIT's read with int(). */
  predicate RowFacts(ex: JVal, r: Row)
  {
    && Get2(ex, "details", "fname") == Some(r.fname)
    && Get(ex, "operand") == Some(r.operand)
    && Get2(ex, "details", "latency").Some?
    && PyInt(Get2(ex, "details", "latency").value) == Some(r.latencyNs)
  }

  /** Every row comes from an EXIT paired with an earlier ENTER of the same key, and states RowFacts of that EXIT. */
  lemma RowsMeaning(evs: seq<JVal>, n: nat)
    requires RunRows(evs, Classify, Whole, MakeRow).Some?
    requires n < |RunRows(evs, Classify, Whole, MakeRow).value|
    ensures exists i, j ::
        && 0 <= i < j < |evs|
        && Classify(evs[i]).Some? && Classify(evs[i]).value.1 == Enter
        && Classify(evs[j]).Some? && Classify(evs[j]).value.1 == Exit
        && Classify(evs[i]).value.0 == Classify(evs[j]).value.0
        && RowFacts(evs[j], RunRows(evs, Classify, Whole, MakeRow).value[n])
  {
    RowsProvenance(evs, Classify, Whole, MakeRow);
    var rows := Pairing.Run(evs, Classify, Whole, MakeRow).value.rows;
    assert Emitted(evs, Classify, Whole, MakeRow, rows[n]);
    var i, j :| EmittedBy(evs, Classify, Whole, MakeRow, rows[n], i, j);
  }
}
