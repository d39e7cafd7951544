/**
 * `pair_events(path, operand)` of latency.py: ENTER and EXIT events of one
 * thread, operand and fd are paired, and every paired EXIT gives a latency
 * row labelled with the operand the function was called for.
 */
module Latency {
  import opened Wrappers
  import opened Json
  import opened Pairing

  /** `(tid, operand, fd)`. */
  type Key = (JVal, JVal, JVal)

  /** A row; `latencyNs` is int() of the EXIT's latency, which the script then divides by 1e6. */
  datatype Row = Row(latencyNs: int, operand: string)

  /** The key and kind of an event; None where one of the lookups raises. */
  function Classify(ev: JVal): Option<(Key, Kind)>
  {
    var tid := Get(ev, "tid");
    var op := Get(ev, "operand");
    var fd := Get2(ev, "details", "fd");
    var et := Get(ev, "event_type");
    if tid.None? || op.None? || fd.None? || et.None? then None
    else Some(((tid.value, op.value, fd.value), EventKind(et.value)))
  }

  function Whole(ev: JVal): JVal
  {
    ev
  }

  /** The row of a paired EXIT: its latency and the caller's operand. */
  function MakeRow(operand: string, ev: JVal): Outcome<Row>
  {
    var latency := Get2(ev, "details", "latency");
    if latency.None? || PyInt(latency.value).None? then Fail
    else Emit(Row(PyInt(latency.value).value, operand))
  }

  /** The row builder for one call. */
  function RowFor(operand: string): (JVal, JVal, Key) -> Outcome<Row>
  {
    (en: JVal, ev: JVal, k: Key) => MakeRow(operand, ev)
  }

  /** `pair_events` over the decoded lines of the log, in file order; None where it raises. */
  method PairEvents(evs: seq<JVal>, operand: string) returns (rows: Option<seq<Row>>)
    ensures rows == RunRows(evs, Classify, Whole, RowFor(operand))
  {
    var pending: map<Key, JVal> := map[];
    var acc: seq<Row> := [];
    var i := 0;
    while i < |evs|
      invariant 0 <= i <= |evs|
      invariant Pairing.Run(evs[..i], Classify, Whole, RowFor(operand)) == Some(State(pending, acc))
    {
      RunStep(evs, i, Classify, Whole, RowFor(operand), State(pending, acc));
      var ev := evs[i];
      var tid := Get(ev, "tid");
      var op := Get(ev, "operand");
      var fd := Get2(ev, "details", "fd");
      var et := Get(ev, "event_type");
      if tid.None? || op.None? || fd.None? || et.None? {
        FailSticks(evs, i + 1, Classify, Whole, RowFor(operand));
        return None;
      }
      var key := (tid.value, op.value, fd.value);
      if et.value == JStr("ENTER") {
        pending := pending[key := ev];
        i := i + 1;
        continue;
      }
      if et.value == JStr("EXIT") && key in pending {
        pending := pending - {key};
        var latency := Get2(ev, "details", "latency");
        var latencyNs := if latency.Some? then PyInt(latency.value) else None;
        if latencyNs.None? {
          FailSticks(evs, i + 1, Classify, Whole, RowFor(operand));
          return None;
        }
        acc := acc + [Row(latencyNs.value, operand)];
      }
      i := i + 1;
    }
    assert evs[..i] == evs;
    return Some(acc);
  }

  /**
   * Every row carries the operand the function was called with, whatever the
   * events' own operand fields say, and there is one row per matched EXIT.
   */
  lemma RowsMeaning(evs: seq<JVal>, operand: string)
    requires RunRows(evs, Classify, Whole, RowFor(operand)).Some?
    ensures forall r :: r in RunRows(evs, Classify, Whole, RowFor(operand)).value ==> r.operand == operand
    ensures |RunRows(evs, Classify, Whole, RowFor(operand)).value| == MatchedCount<JVal, Key, JVal, Row>(evs, Classify)
  {
    var row := RowFor(operand);
    forall v, e, k ensures !row(v, e, k).Skip? { }
    RowPerMatch(evs, Classify, Whole, row);
    RowsProvenance(evs, Classify, Whole, row);
    var rows := Pairing.Run(evs, Classify, Whole, row).value.rows;
    forall r | r in rows ensures r.operand == operand {
      var n :| 0 <= n < |rows| && rows[n] == r;
      assert Emitted(evs, Classify, Whole, row, rows[n]);
      var i, j :| EmittedBy(evs, Classify, Whole, row, rows[n], i, j);
    }
  }
}
