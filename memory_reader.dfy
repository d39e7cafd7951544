/**
 * The stateful ENTER/EXIT correlator of src/logreaders/memory.py: ENTER
 * objects wait in a dictionary keyed by (pid, tid); the next EXIT with that
 * key takes its ENTER out and the pair becomes an I/O row under the same rule
 * as src/logreaders/io.py.
 */
module MemoryReader {
  import opened Wrappers
  import opened Strings
  import opened LogObjects
  import IoReader

  type Memory = map<(string, string), TraceObj>

  /** One `build_record(obj)` call: the new dictionary and the result. */
  function Step(m: Memory, obj: TraceObj): (Memory, Built<IoReader.IOLog>)
  {
    (NextMemory(m, obj), Result(m, obj))
  }

  /** The dictionary after `build_record(obj)`: an ENTER is stored, an exit pops its key. */
  function NextMemory(m: Memory, obj: TraceObj): Memory
  {
    var key := MakeKey(obj);
    if obj.status == "EN" then m[key := obj]
    else if key !in m then m
    else m - {key}
  }

  /** The value `build_record(obj)` returns. */
  function Result(m: Memory, obj: TraceObj): Built<IoReader.IOLog>
  {
    var key := MakeKey(obj);
    if obj.status == "EN" || key !in m then NoRecord
    else IoReader.BuildRecord(m[key], obj)
  }

  /** Every pending object is an ENTER stored under its own key. */
  predicate Pending(m: Memory)
  {
    forall k :: k in m ==> m[k].status == "EN" && MakeKey(m[k]) == k
  }

  /**
   * An ENTER replaces its key's entry and yields None; any other status is an
   * exit, which without an entry changes nothing, and with one removes it
   * whatever the result; no other key is touched, the size moves by at most
   * one, and pending entries stay ENTERs under their own key.
   */
  lemma StepMeaning(m: Memory, obj: TraceObj, k: (string, string))
    requires Pending(m)
    ensures var (m', r) := Step(m, obj);
      && Pending(m')
      && (obj.status == "EN" ==> r == NoRecord && MakeKey(obj) in m' && m'[MakeKey(obj)] == obj)
      && (obj.status != "EN" && MakeKey(obj) !in m ==> r == NoRecord && m' == m)
      && (obj.status != "EN" && MakeKey(obj) in m ==> MakeKey(obj) !in m' && r == IoReader.BuildRecord(m[MakeKey(obj)], obj))
      && (k != MakeKey(obj) ==> (k in m' <==> k in m) && (k in m ==> m'[k] == m[k]))
      && |m| - 1 <= |m'| <= |m| + 1
  {
    var key := MakeKey(obj);
    if obj.status != "EN" && key in m {
      assert |m - {key}| == |m| - 1;
    }
  }

  /** The objects in order; `IsLastWithKey(objs, k, i)`: position i holds the last object with key k. */
  predicate IsLastWithKey(objs: seq<TraceObj>, k: (string, string), i: int)
  {
    && 0 <= i < |objs| && MakeKey(objs[i]) == k
    && forall j :: i < j < |objs| ==> MakeKey(objs[j]) != k
  }

  /** The dictionary after a sequence of calls, first to last. */
  function Run(m: Memory, objs: seq<TraceObj>): Memory
    decreases |objs|
  {
    if |objs| == 0 then m else NextMemory(Run(m, objs[..|objs| - 1]), objs[|objs| - 1])
  }

  /**
   * From an empty dictionary, a key is pending after a sequence of calls iff
   * the last object with that key is an ENTER, and then that ENTER is the
   * pending object: an EXIT always clears its key, matched or not.
   */
  lemma {:induction false} RunPending(objs: seq<TraceObj>, k: (string, string))
    ensures k in Run(map[], objs) <==> exists i :: IsLastWithKey(objs, k, i) && objs[i].status == "EN"
    ensures forall i :: IsLastWithKey(objs, k, i) && objs[i].status == "EN" ==> Run(map[], objs)[k] == objs[i]
    decreases |objs|
  {
    if |objs| > 0 {
      var init := objs[..|objs| - 1];
      var last := objs[|objs| - 1];
      RunPending(init, k);
      var m := Run(map[], init);
      assert Run(map[], objs) == NextMemory(m, last);
      if MakeKey(last) == k {
        LastIsLast(objs, k);
        NextMemoryAt(m, last);
      } else {
        NextMemoryElsewhere(m, last, k);
        LastOfInit(objs, k);
      }
    }
  }

  /** When the last object carries the key, it is the last with that key. */
  lemma LastIsLast(objs: seq<TraceObj>, k: (string, string))
    requires |objs| > 0 && MakeKey(objs[|objs| - 1]) == k
    ensures IsLastWithKey(objs, k, |objs| - 1)
    ensures forall i :: IsLastWithKey(objs, k, i) ==> i == |objs| - 1
  {
  }

  /** When the last object does not carry the key, the last with that key lies in the prefix. */
  lemma LastOfInit(objs: seq<TraceObj>, k: (string, string))
    requires |objs| > 0 && MakeKey(objs[|objs| - 1]) != k
    ensures forall i :: IsLastWithKey(objs, k, i) <==> IsLastWithKey(objs[..|objs| - 1], k, i)
  {
  }

  /** The entry for the key of the object just handled: the object itself after an ENTER, none after an exit. */
  lemma NextMemoryAt(m: Memory, obj: TraceObj)
    ensures obj.status == "EN" ==> MakeKey(obj) in NextMemory(m, obj) && NextMemory(m, obj)[MakeKey(obj)] == obj
    ensures obj.status != "EN" ==> MakeKey(obj) !in NextMemory(m, obj)
  {
  }

  /** Other keys keep their entries. */
  lemma NextMemoryElsewhere(m: Memory, obj: TraceObj, k: (string, string))
    requires MakeKey(obj) != k
    ensures (k in NextMemory(m, obj) <==> k in m) && (k in m ==> NextMemory(m, obj)[k] == m[k])
  {
  }

  /**
   * The reader as the source writes it. No line ever assigns `self.memory`
   * (the inherited `__init__` sets only the directory and the reference
   * times), so the attribute is absent: None here. Every access to it then
   * raises AttributeError, which is what `build_record` does on its first line
   * that touches the dictionary, whatever the status.
   */
  function AttrStep(m: Option<Memory>, obj: TraceObj): (Option<Memory>, Built<IoReader.IOLog>)
  {
    match m
    case None => (None, Raised)
    case Some(d) => (Some(Step(d, obj).0), Step(d, obj).1)
  }

  /** The state and the results after a sequence of `build_record` calls, first to last. */
  function ReaderRun(m: Option<Memory>, objs: seq<TraceObj>): (Option<Memory>, seq<Built<IoReader.IOLog>>)
    decreases |objs|
  {
    if |objs| == 0 then (m, [])
    else
      var prev := ReaderRun(m, objs[..|objs| - 1]);
      var next := AttrStep(prev.0, objs[|objs| - 1]);
      (next.0, prev.1 + [next.1])
  }

  /** As written, the attribute never appears and every call raises, one result per object. */
  lemma {:induction false} AsWrittenAllRaise(objs: seq<TraceObj>)
    ensures ReaderRun(None, objs).0 == None
    ensures |ReaderRun(None, objs).1| == |objs|
    ensures forall i :: 0 <= i < |objs| ==> ReaderRun(None, objs).1[i] == Raised
    decreases |objs|
  {
    if |objs| > 0 {
      AsWrittenAllRaise(objs[..|objs| - 1]);
    }
  }

  /**
   * With the dictionary started empty, as the class evidently intends, the
   * pending state after the calls is the run of the step function, which
   * RunPending characterises.
   */
  lemma {:induction false} InitialisedRun(objs: seq<TraceObj>)
    ensures ReaderRun(Some(map[]), objs).0 == Some(Run(map[], objs))
    decreases |objs|
  {
    if |objs| > 0 {
      InitialisedRun(objs[..|objs| - 1]);
    }
  }

  /** The `IOReader` of memory.py, with its pending dictionary started empty and updated in place. */
  class IOReader {
    var memory: Memory

    constructor ()
      ensures memory == map[]
    {
      memory := map[];
    }

    /** memory.py:14-52, with the record built field by field as memory.py does. */
    method BuildRecord(obj: TraceObj) returns (r: Built<IoReader.IOLog>)
      modifies this
      ensures (memory, r) == Step(old(memory), obj)
    {
      var key := MakeKey(obj);
      if obj.status == "EN" {
        memory := memory[key := obj];
        return NoRecord;
      }
      if key !in memory {
        return NoRecord;
      }
      var enObj := memory[key];
      memory := memory - {key};
      var exObj := obj;
      var fd := SpecInt(enObj.spec, "fd", -1);
      if fd.None? {
        return Raised;
      }
      var ret := SpecInt(exObj.spec, "ret", -1);
      if ret.None? {
        return Raised;
      }
      if fd.value < 0 || ret.value < 0 {
        return NoRecord;
      }
      var enTs := PyParseInt(enObj.timestamp);
      var exTs := PyParseInt(exObj.timestamp);
      var count := SpecInt(enObj.spec, "count", 0);
      if enTs.None? || exTs.None? || count.None? {
        return Raised;
      }
      r := Record(IoReader.IOLog(enTs.value, exTs.value, enObj.pid, enObj.tid, enObj.proc, enObj.operand,
                                 fd.value, ret.value, count.value));
    }
  }
}
