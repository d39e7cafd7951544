/**
 * The keyed ENTER/EXIT pairing shared by the plot scripts (timeline.py,
 * files.py, latency.py, dashboard.py): an ENTER stores a value under its key,
 * replacing any earlier one; an EXIT whose key is pending pops it and may
 * emit a row built from the stored value and the EXIT; every other event
 * leaves the state alone. Each script supplies how an event is keyed and
 * classified, what an ENTER stores, and how a row is built; None and Fail
 * mark where the script raises, which ends the whole pairing.
 */
module Pairing {
  import opened Wrappers
  import opened Json

  datatype Kind = Enter | Exit | Other

  /** `ev["event_type"] == "ENTER"` / `== "EXIT"`. */
  function EventKind(v: JVal): Kind
  {
    if v == JStr("ENTER") then Enter else if v == JStr("EXIT") then Exit else Other
  }

  /** What an EXIT with a pending key produces. */
  datatype Outcome<R> = Skip | Emit(row: R) | Fail

  datatype State<K(==), V, R> = State(pending: map<K, V>, rows: seq<R>)

  /** One iteration of a pairing loop; None where it raises. */
  function Step<E, K(==), V, R>(st: State<K, V, R>, ev: E, classify: E -> Option<(K, Kind)>, value: E -> V,
                            row: (V, E, K) -> Outcome<R>): Option<State<K, V, R>>
  {
    match classify(ev)
    case None => None
    case Some((k, kind)) =>
      match kind
      case Enter => Some(State(st.pending[k := value(ev)], st.rows))
      case Other => Some(st)
      case Exit =>
        if k !in st.pending then Some(st)
        else
          match row(st.pending[k], ev, k)
          case Fail => None
          case Skip => Some(State(st.pending - {k}, st.rows))
          case Emit(r) => Some(State(st.pending - {k}, st.rows + [r]))
  }

  /** The loop over all events, from nothing pending and no rows. */
  function Run<E, K(==), V, R>(evs: seq<E>, classify: E -> Option<(K, Kind)>, value: E -> V,
                           row: (V, E, K) -> Outcome<R>): Option<State<K, V, R>>
    decreases |evs|
  {
    if |evs| == 0 then Some(State(map[], []))
    else
      match Run(evs[..|evs| - 1], classify, value, row)
      case None => None
      case Some(st) => Step(st, evs[|evs| - 1], classify, value, row)
  }

  /** What a pairing function returns: its rows, or None where it raises. */
  function RunRows<E, K(==), V, R>(evs: seq<E>, classify: E -> Option<(K, Kind)>, value: E -> V,
                               row: (V, E, K) -> Outcome<R>): Option<seq<R>>
  {
    match Run(evs, classify, value, row)
    case None => None
    case Some(st) => Some(st.rows)
  }

  /** One more event takes the loop from the state after the prefix by one Step. */
  lemma RunStep<E, K, V, R>(evs: seq<E>, i: nat, classify: E -> Option<(K, Kind)>, value: E -> V,
                            row: (V, E, K) -> Outcome<R>, st: State<K, V, R>)
    requires i < |evs| && Run(evs[..i], classify, value, row) == Some(st)
    ensures Run(evs[..i + 1], classify, value, row) == Step(st, evs[i], classify, value, row)
  {
    assert evs[..i + 1][..i] == evs[..i];
  }

  /** Once the loop has raised on a prefix, the whole pairing raises. */
  lemma {:induction false} FailSticks<E, K, V, R>(evs: seq<E>, i: nat, classify: E -> Option<(K, Kind)>, value: E -> V,
                                                row: (V, E, K) -> Outcome<R>)
    requires i <= |evs|
    requires Run(evs[..i], classify, value, row).None?
    ensures Run(evs, classify, value, row).None?
    decreases |evs| - i
  {
    if i < |evs| {
      assert evs[..i + 1][..i] == evs[..i];
      FailSticks(evs, i + 1, classify, value, row);
    } else {
      assert evs[..i] == evs;
    }
  }

  /** The event is an ENTER or an EXIT of key k. */
  predicate Touches<E, K(==)>(classify: E -> Option<(K, Kind)>, e: E, k: K)
  {
    classify(e).Some? && classify(e).value.0 == k && classify(e).value.1 != Other
  }

  /** The index of the last ENTER or EXIT of key k. */
  function LastTouch<E, K(==)>(evs: seq<E>, classify: E -> Option<(K, Kind)>, k: K): (r: Option<nat>)
    ensures r.Some? ==> r.value < |evs| && Touches(classify, evs[r.value], k)
    decreases |evs|
  {
    if |evs| == 0 then None
    else if Touches(classify, evs[|evs| - 1], k) then Some(|evs| - 1)
    else LastTouch(evs[..|evs| - 1], classify, k)
  }

  /** LastTouch finds an ENTER or EXIT of k with none after it, and None means the key never occurs. */
  lemma {:induction false} LastTouchMeaning<E, K>(evs: seq<E>, classify: E -> Option<(K, Kind)>, k: K)
    ensures LastTouch(evs, classify, k).Some? ==>
      var i := LastTouch(evs, classify, k).value;
      Touches(classify, evs[i], k) && forall j :: i < j < |evs| ==> !Touches(classify, evs[j], k)
    ensures LastTouch(evs, classify, k).None? ==> forall j :: 0 <= j < |evs| ==> !Touches(classify, evs[j], k)
    decreases |evs|
  {
    if |evs| > 0 && !Touches(classify, evs[|evs| - 1], k) {
      var init := evs[..|evs| - 1];
      LastTouchMeaning(init, classify, k);
      forall j | 0 <= j < |init| ensures evs[j] == init[j] { }
    }
  }

  /** The ENTER an event at the end of `before` pairs with: the last ENTER/EXIT of the EXIT's key, when that is an ENTER. */
  function Partner<E, K(==), V, R>(before: seq<E>, e: E, classify: E -> Option<(K, Kind)>): Option<nat>
  {
    if classify(e).Some? && classify(e).value.1 == Exit then
      var lt := LastTouch(before, classify, classify(e).value.0);
      if lt.Some? && classify(before[lt.value]).value.1 == Enter then lt else None
    else None
  }

  /** A key is pending exactly when its last ENTER/EXIT is an ENTER, and it then holds what that ENTER stored. */
  lemma {:induction false} PendingMeaning<E, K, V, R>(evs: seq<E>, classify: E -> Option<(K, Kind)>, value: E -> V,
                                                   row: (V, E, K) -> Outcome<R>, k: K)
    requires Run(evs, classify, value, row).Some?
    ensures var st := Run(evs, classify, value, row).value;
      var lt := LastTouch(evs, classify, k);
      && (k in st.pending <==> lt.Some? && classify(evs[lt.value]).value.1 == Enter)
      && (k in st.pending ==> st.pending[k] == value(evs[lt.value]))
    decreases |evs|
  {
    if |evs| > 0 {
      var init := evs[..|evs| - 1];
      PendingMeaning(init, classify, value, row, k);
      var last := evs[|evs| - 1];
      if !Touches(classify, last, k) {
        var lt := LastTouch(init, classify, k);
        if lt.Some? {
          assert evs[lt.value] == init[lt.value];
        }
      }
    }
  }

  /** Whether the EXIT at the end of `before` produces a row, none, or raises. */
  function Contribution<E, K(==), V, R>(before: seq<E>, e: E, classify: E -> Option<(K, Kind)>, value: E -> V,
                                    row: (V, E, K) -> Outcome<R>): Outcome<R>
  {
    match Partner<E, K, V, R>(before, e, classify)
    case None => Skip
    case Some(i) => row(value(before[i]), e, classify(e).value.0)
  }

  /** The event raises: it cannot be keyed or classified, or it is a paired EXIT whose row raises. */
  predicate RaisesAt<E, K(==), V, R>(before: seq<E>, e: E, classify: E -> Option<(K, Kind)>, value: E -> V,
                                 row: (V, E, K) -> Outcome<R>)
  {
    classify(e).None? || Contribution(before, e, classify, value, row).Fail?
  }

  /** The rows a pairing emits, described event by event through partners instead of the pending map. */
  function PairedRows<E, K(==), V, R>(evs: seq<E>, classify: E -> Option<(K, Kind)>, value: E -> V,
                                  row: (V, E, K) -> Outcome<R>): seq<R>
    decreases |evs|
  {
    if |evs| == 0 then []
    else
      var init := evs[..|evs| - 1];
      PairedRows(init, classify, value, row)
        + match Contribution(init, evs[|evs| - 1], classify, value, row) case Emit(r) => [r] case _ => []
  }

  /**
   * The pairing theorem: the loop raises exactly when some event raises given
   * the events before it, and otherwise it emits, in EXIT order, one row per
   * EXIT whose key's last earlier ENTER/EXIT is an ENTER, built from what
   * that ENTER stored, unless the row is skipped.
   */
  lemma RunMeaning<E, K, V, R>(evs: seq<E>, classify: E -> Option<(K, Kind)>, value: E -> V,
                               row: (V, E, K) -> Outcome<R>)
    ensures Run(evs, classify, value, row).Some? <==>
      forall j :: 0 <= j < |evs| ==> !RaisesAt(evs[..j], evs[j], classify, value, row)
    ensures Run(evs, classify, value, row).Some? ==> Run(evs, classify, value, row).value.rows == PairedRows(evs, classify, value, row)
  {
    RunRaises(evs, classify, value, row);
    if Run(evs, classify, value, row).Some? {
      RunRowsPaired(evs, classify, value, row);
    }
  }

  lemma {:induction false} RunRaises<E, K, V, R>(evs: seq<E>, classify: E -> Option<(K, Kind)>, value: E -> V,
                                               row: (V, E, K) -> Outcome<R>)
    ensures Run(evs, classify, value, row).Some? <==>
      forall j :: 0 <= j < |evs| ==> !RaisesAt(evs[..j], evs[j], classify, value, row)
    decreases |evs|
  {
    if |evs| > 0 {
      var init := evs[..|evs| - 1];
      var last := evs[|evs| - 1];
      RunRaises(init, classify, value, row);
      forall j | 0 <= j < |init|
        ensures evs[..j] == init[..j] && evs[j] == init[j]
      {
      }
      if Run(init, classify, value, row).Some? {
        if classify(last).Some? {
          PendingMeaning(init, classify, value, row, classify(last).value.0);
        }
      } else {
        var j :| 0 <= j < |init| && RaisesAt(init[..j], init[j], classify, value, row);
        assert RaisesAt(evs[..j], evs[j], classify, value, row);
      }
    }
  }

  lemma {:induction false} RunRowsPaired<E, K, V, R>(evs: seq<E>, classify: E -> Option<(K, Kind)>, value: E -> V,
                                                   row: (V, E, K) -> Outcome<R>)
    requires Run(evs, classify, value, row).Some?
    ensures Run(evs, classify, value, row).value.rows == PairedRows(evs, classify, value, row)
    decreases |evs|
  {
    if |evs| > 0 {
      var init := evs[..|evs| - 1];
      var last := evs[|evs| - 1];
      RunRowsPaired(init, classify, value, row);
      if classify(last).Some? {
        PendingMeaning(init, classify, value, row, classify(last).value.0);
      }
    }
  }

  /** How many EXITs have a partner. */
  function MatchedCount<E, K(==), V, R>(evs: seq<E>, classify: E -> Option<(K, Kind)>): nat
    decreases |evs|
  {
    if |evs| == 0 then 0
    else
      MatchedCount<E, K, V, R>(evs[..|evs| - 1], classify)
        + if Partner<E, K, V, R>(evs[..|evs| - 1], evs[|evs| - 1], classify).Some? then 1 else 0
  }

  /** When rows are never skipped, a pairing that does not raise emits exactly one row per matched EXIT. */
  lemma {:induction false} RowPerMatch<E, K, V, R>(evs: seq<E>, classify: E -> Option<(K, Kind)>, value: E -> V,
                                                 row: (V, E, K) -> Outcome<R>)
    requires forall v, e, k :: !row(v, e, k).Skip?
    requires Run(evs, classify, value, row).Some?
    ensures |Run(evs, classify, value, row).value.rows| == MatchedCount<E, K, V, R>(evs, classify)
    decreases |evs|
  {
    if |evs| > 0 {
      var init := evs[..|evs| - 1];
      RowPerMatch(init, classify, value, row);
      var last := evs[|evs| - 1];
      assert evs[..|evs| - 1] == init;
      var st := Run(init, classify, value, row).value;
      var k := classify(last).value.0;
      PendingMeaning(init, classify, value, row, k);
      if classify(last).value.1 == Exit && k in st.pending {
        var pv := st.pending[k];
        NoSkip(row, pv, last, k);
      }
    }
  }

  lemma NoSkip<E, K, V, R>(row: (V, E, K) -> Outcome<R>, v: V, e: E, k: K)
    requires forall v, e, k :: !row(v, e, k).Skip?
    ensures !row(v, e, k).Skip?
  {
  }

  /** Row n was emitted by the EXIT at j, paired with the ENTER at i < j of the same key. */
  ghost predicate EmittedBy<E, K, V, R>(evs: seq<E>, classify: E -> Option<(K, Kind)>, value: E -> V,
                                        row: (V, E, K) -> Outcome<R>, r: R, i: int, j: int)
  {
    && 0 <= i < j < |evs|
    && classify(evs[i]).Some? && classify(evs[j]).Some?
    && classify(evs[i]).value == (classify(evs[j]).value.0, Enter)
    && classify(evs[j]).value.1 == Exit
    && row(value(evs[i]), evs[j], classify(evs[j]).value.0) == Emit(r)
  }

  ghost predicate Emitted<E, K, V, R>(evs: seq<E>, classify: E -> Option<(K, Kind)>, value: E -> V,
                                      row: (V, E, K) -> Outcome<R>, r: R)
  {
    exists i, j :: EmittedBy(evs, classify, value, row, r, i, j)
  }

  /** Every emitted row comes from an EXIT and an earlier ENTER of the same key. */
  lemma {:induction false} RowsProvenance<E, K, V, R>(evs: seq<E>, classify: E -> Option<(K, Kind)>, value: E -> V,
                                                    row: (V, E, K) -> Outcome<R>)
    requires Run(evs, classify, value, row).Some?
    ensures var rows := Run(evs, classify, value, row).value.rows;
      forall n :: 0 <= n < |rows| ==> Emitted(evs, classify, value, row, rows[n])
    decreases |evs|
  {
    if |evs| > 0 {
      var init := evs[..|evs| - 1];
      var last := evs[|evs| - 1];
      RowsProvenance(init, classify, value, row);
      var before := Run(init, classify, value, row).value.rows;
      var rows := Run(evs, classify, value, row).value.rows;
      assert evs[..|evs| - 1] == init;
      forall n | 0 <= n < |rows|
        ensures Emitted(evs, classify, value, row, rows[n])
      {
        if n < |before| {
          assert rows[n] == before[n];
          var i, j :| EmittedBy(init, classify, value, row, before[n], i, j);
          assert evs[i] == init[i] && evs[j] == init[j];
          assert EmittedBy(evs, classify, value, row, rows[n], i, j);
        } else {
          var k := classify(last).value.0;
          var st := Run(init, classify, value, row).value;
          assert classify(last).value.1 == Exit && k in st.pending;
          assert row(st.pending[k], last, k) == Emit(rows[n]);
          PendingMeaning(init, classify, value, row, k);
          var i := LastTouch(init, classify, k).value;
          assert evs[i] == init[i];
          assert EmittedBy(evs, classify, value, row, rows[n], i, |evs| - 1);
        }
      }
    }
  }
}
