/**
 * `build_pairs` of dashboard.py: the loaded events (each with its timestamp
 * already parsed into `ts`) are paired by thread, fd and file name into
 * intervals from an ENTER's ts to the matching EXIT's ts.
 */
module Dashboard {
  import opened Wrappers
  import opened Json
  import opened Pairing

  /** A parsed `datetime`, kept as the text it was parsed from; every datetime is truthy. */
  datatype Datetime = Datetime(text: string)

  /** An element of `load_events`: the decoded object and its parsed `ts`. */
  datatype Loaded = Loaded(obj: JVal, ts: Datetime)

  /** `(tid, fd, fname)`. */
  type Key = (JVal, JVal, JVal)

  /** An interval; the midpoint the script also stores is left out. */
  datatype Interval = Interval(start: Datetime, end: Datetime, fname: JVal)

  /**
   * The key and kind of an event: fname defaults to "unknown" and fd to None;
   * None where `ev["details"]`, `ev["tid"]` or `ev["event_type"]` raises.
   */
  function Classify(ev: Loaded): Option<(Key, Kind)>
  {
    match Get(ev.obj, "details")
    case None => None
    case Some(details) =>
      var fname := GetOr(details, "fname", JStr("unknown"));
      var fd := GetOr(details, "fd", JNull);
      var tid := Get(ev.obj, "tid");
      var et := Get(ev.obj, "event_type");
      if fname.None? || fd.None? || tid.None? || et.None? then None
      else Some(((tid.value, fd.value, fname.value), EventKind(et.value)))
  }

  /** An ENTER stores its timestamp. */
  function Ts(ev: Loaded): Datetime
  {
    ev.ts
  }

  /** The interval of a paired EXIT: from the stored start to the EXIT's ts, with the key's fname. */
  function MakeInterval(start: Datetime, ev: Loaded, k: Key): Outcome<Interval>
  {
    Emit(Interval(start, ev.ts, k.2))
  }

  /** `build_pairs`; None where it raises. */
  method BuildPairs(events: seq<Loaded>) returns (intervals: Option<seq<Interval>>)
    ensures intervals == RunRows(events, Classify, Ts, MakeInterval)
  {
    var stack: map<Key, Datetime> := map[];
    var acc: seq<Interval> := [];
    var i := 0;
    while i < |events|
      invariant 0 <= i <= |events|
      invariant Pairing.Run(events[..i], Classify, Ts, MakeInterval) == Some(State(stack, acc))
    {
      assert events[..i + 1][..i] == events[..i];
      var ev := events[i];
      var details := Get(ev.obj, "details");
      var fname := if details.Some? then GetOr(details.value, "fname", JStr("unknown")) else None;
      var fd := if details.Some? then GetOr(details.value, "fd", JNull) else None;
      var tid := Get(ev.obj, "tid");
      if fname.None? || fd.None? || tid.None? {
        FailSticks(events, i + 1, Classify, Ts, MakeInterval);
        return None;
      }
      var key := (tid.value, fd.value, fname.value);
      var et := Get(ev.obj, "event_type");
      if et.None? {
        FailSticks(events, i + 1, Classify, Ts, MakeInterval);
        return None;
      }
      if et.value == JStr("ENTER") {
        stack := stack[key := ev.ts];
      } else if et.value == JStr("EXIT") {
        var start := if key in stack then Some(stack[key]) else None;
        assert key !in stack ==> stack - {key} == stack;
        stack := stack - {key};
        if start.Some? {
          acc := acc + [Interval(start.value, ev.ts, fname.value)];
        }
      }
      i := i + 1;
    }
    assert events[..i] == events;
    return Some(acc);
  }

  /**
   * Every interval runs from the ts of an ENTER to the ts of a later EXIT
   * with the same tid, fd and fname (missing names counting as "unknown"),
   * and carries that fname; there is one interval per matched EXIT.
   */
  lemma IntervalsMeaning(events: seq<Loaded>, n: nat)
    requires RunRows(events, Classify, Ts, MakeInterval).Some?
    requires n < |RunRows(events, Classify, Ts, MakeInterval).value|
    ensures |RunRows(events, Classify, Ts, MakeInterval).value| == MatchedCount<Loaded, Key, Datetime, Interval>(events, Classify)
    ensures exists i, j ::
        && 0 <= i < j < |events|
        && Classify(events[i]).Some? && Classify(events[i]).value.1 == Enter
        && Classify(events[j]).Some? && Classify(events[j]).value.1 == Exit
        && Classify(events[i]).value.0 == Classify(events[j]).value.0
        && RunRows(events, Classify, Ts, MakeInterval).value[n]
           == Interval(events[i].ts, events[j].ts, Classify(events[j]).value.0.2)
  {
    forall v, e, k ensures !MakeInterval(v, e, k).Skip? { }
    RowPerMatch(events, Classify, Ts, MakeInterval);
    RowsProvenance(events, Classify, Ts, MakeInterval);
    var rows := Pairing.Run(events, Classify, Ts, MakeInterval).value.rows;
    assert Emitted(events, Classify, Ts, MakeInterval, rows[n]);
    var i, j :| EmittedBy(events, Classify, Ts, MakeInterval, rows[n], i, j);
  }

  /** An event with no fname in its details is keyed under "unknown", and one with no fd under None. */
  lemma DefaultsInKey(ev: Loaded)
    requires Classify(ev).Some?
    ensures var details := Get(ev.obj, "details").value;
      && ("fname" !in details.fields ==> Classify(ev).value.0.2 == JStr("unknown"))
      && ("fd" !in details.fields ==> Classify(ev).value.0.1 == JNull)
  {
  }

  /** Event types other than ENTER and EXIT leave the stack and the intervals unchanged. */
  lemma OtherEventsIgnored(st: State<Key, Datetime, Interval>, ev: Loaded)
    requires Classify(ev).Some? && Classify(ev).value.1 == Other
    ensures Step(st, ev, Classify, Ts, MakeInterval) == Some(st)
  {
  }
}
