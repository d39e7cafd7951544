/**
 * The indexing pipeline (pipeline.py): the lines of logs.jsonl are cut into
 * batches, each batch is classified line by line into (output path, payload)
 * pairs, every payload is put on the queue of its path's writer (one writer
 * per path, created on first use), and each writer buffers what it receives
 * and writes it out in chunks of at least 4 MiB, flushing the rest on shutdown.
 *
 * Processes and queues run here one step after another; JSON decoding is the
 * parameter `decode` (None where it raises).
 */
module Pipeline {
  import opened Wrappers
  import opened Strings
  import opened Json

  const BatchLines: nat := 2000
  const WriteBatchBytes: nat := 4 * 1024 * 1024

  type Decoder = string -> Option<JVal>

  // ---------------------------------------------------------------------
  // process_batch
  // ---------------------------------------------------------------------

  /**
   * posixpath.join of two components: the result always ends with the second
   * component; a relative second component keeps the first in front of it,
   * separated by at most one added `/`, and an absolute one replaces it.
   */
  function PathJoin(a: string, b: string): (r: string)
    ensures |b| <= |r| && r[|r| - |b|..] == b
    ensures (|b| == 0 || b[0] != '/') ==> |a| <= |r| <= |a| + 1 + |b| && r[..|a|] == a
    ensures (|b| == 0 || b[0] != '/') && |a| > 0 && |b| > 0 ==> r[|a| - 1] == '/' || (|a| < |r| && r[|a|] == '/')
    ensures |b| > 0 && b[0] == '/' ==> r == b
  {
    if |b| > 0 && b[0] == '/' then b
    else if |a| == 0 || a[|a| - 1] == '/' then a + b
    else a + "/" + b
  }

  /** What one line of a batch becomes. */
  datatype LineOutcome = Skip | Route(path: string, payload: seq<byte>) | Fail

  /** The path of a routed line: os.path.join(base, "procs", proc) joined with "<operand>.jsonl". */
  function OutPath(baseDir: string, proc: string, operand: JVal): string
  {
    PathJoin(PathJoin(PathJoin(baseDir, "procs"), proc), Str(operand) + ".jsonl")
  }

  /**
   * One iteration of the loop of process_batch. A line that does not decode,
   * or whose `proc` is missing or falsy, is skipped; `.get` on a decoded value
   * that is not an object, a missing `operand` and a `proc` that is not a
   * string raise.
   */
  function Classify(baseDir: string, line: string, decode: Decoder): LineOutcome
  {
    match decode(line)
    case None => Skip
    case Some(log) =>
      if !log.JObj? then Fail
      else
        var proc := if "proc" in log.fields then log.fields["proc"] else JNull;
        if !Truthy(proc) then Skip
        else if "operand" !in log.fields then Fail
        else if !proc.JStr? then Fail
        else Route(OutPath(baseDir, proc.s, log.fields["operand"]), Utf8(line + "\n"))
  }

  /** A routed line: its output path and its payload. */
  type Routed = (string, seq<byte>)

  /** The classification process_batch applies to each of its lines. */
  function LineClassifier(baseDir: string, decode: Decoder): string -> LineOutcome
  {
    line => Classify(baseDir, line, decode)
  }

  /** The list process_batch returns for `lines` classified by `classify`, or None when it raises. */
  function BatchOutput(lines: seq<string>, classify: string -> LineOutcome): Option<seq<Routed>>
    decreases |lines|
  {
    if |lines| == 0 then Some([])
    else
      match BatchOutput(lines[..|lines| - 1], classify)
      case None => None
      case Some(out) =>
        match classify(lines[|lines| - 1])
        case Skip => Some(out)
        case Route(p, b) => Some(out + [(p, b)])
        case Fail => None
  }

  /** One more line classified after a prefix that did not raise. */
  lemma BatchOutputStep(lines: seq<string>, i: nat, classify: string -> LineOutcome, acc: seq<Routed>)
    requires i < |lines|
    requires BatchOutput(lines[..i], classify) == Some(acc)
    ensures BatchOutput(lines[..i + 1], classify) ==
      match classify(lines[i])
      case Skip => Some(acc)
      case Route(p, b) => Some(acc + [(p, b)])
      case Fail => None
  {
    assert lines[..i + 1][..i] == lines[..i];
  }

  /** One iteration of the loop of process_batch, as the source writes it. */
  method ClassifyLine(baseDir: string, line: string, decode: Decoder) returns (outcome: LineOutcome)
    ensures outcome == Classify(baseDir, line, decode)
  {
    var log := decode(line);
    if log.None? {
      return Skip;
    }
    if !log.value.JObj? {
      return Fail;
    }
    var fields := log.value.fields;
    var proc := if "proc" in fields then fields["proc"] else JNull;
    if !Truthy(proc) {
      return Skip;
    }
    if "operand" !in fields || !proc.JStr? {
      return Fail;
    }
    var operand := fields["operand"];
    var outDir := PathJoin(PathJoin(baseDir, "procs"), proc.s);
    var outPath := PathJoin(outDir, Str(operand) + ".jsonl");
    return Route(outPath, Utf8(line + "\n"));
  }

  /** `process_batch`: the loop over the batch, accumulating the routed pairs in order. */
  method ProcessBatch(baseDir: string, lines: seq<string>, decode: Decoder) returns (out: Option<seq<Routed>>)
    ensures out == BatchOutput(lines, LineClassifier(baseDir, decode))
  {
    ghost var classify := LineClassifier(baseDir, decode);
    var acc: seq<Routed> := [];
    var i := 0;
    while i < |lines|
      invariant 0 <= i <= |lines|
      invariant BatchOutput(lines[..i], classify) == Some(acc)
    {
      BatchOutputStep(lines, i, classify, acc);
      var outcome := ClassifyLine(baseDir, lines[i], decode);
      match outcome {
        case Skip =>
        case Route(outPath, raw) =>
          acc := acc + [(outPath, raw)];
        case Fail =>
          FailSticks(lines, i + 1, classify);
          assert lines[..|lines|] == lines;
          return None;
      }
      i := i + 1;
    }
    assert lines[..i] == lines;
    return Some(acc);
  }

  /** Once a prefix raises, the whole batch raises. */
  lemma {:induction false} FailSticks(lines: seq<string>, i: nat, classify: string -> LineOutcome)
    requires i <= |lines|
    requires BatchOutput(lines[..i], classify).None?
    ensures BatchOutput(lines, classify).None?
    decreases |lines| - i
  {
    if i < |lines| {
      assert lines[..i + 1][..i] == lines[..i];
      FailSticks(lines, i + 1, classify);
    } else {
      assert lines[..i] == lines;
    }
  }

  /** The lines a batch routes, in input order. */
  function Kept(lines: seq<string>, classify: string -> LineOutcome): seq<string>
    decreases |lines|
  {
    if |lines| == 0 then []
    else if classify(lines[0]).Route? then [lines[0]] + Kept(lines[1..], classify)
    else Kept(lines[1..], classify)
  }

  /** No line of the batch raises. */
  predicate NoFailure(lines: seq<string>, classify: string -> LineOutcome)
  {
    forall i :: 0 <= i < |lines| ==> !classify(lines[i]).Fail?
  }

  /**
   * A batch raises exactly when one of its lines does. Otherwise its output
   * holds one pair per routed line, in input order: the path and payload
   * that line is routed with.
   */
  lemma {:induction false} BatchOutputMeaning(lines: seq<string>, classify: string -> LineOutcome)
    ensures BatchOutput(lines, classify).Some? <==> NoFailure(lines, classify)
    ensures BatchOutput(lines, classify).Some? ==>
      var out := BatchOutput(lines, classify).value;
      var kept := Kept(lines, classify);
      && |out| == |kept|
      && forall j :: 0 <= j < |out| ==> classify(kept[j]) == Route(out[j].0, out[j].1)
    decreases |lines|
  {
    if |lines| > 0 {
      var init := lines[..|lines| - 1];
      var last := lines[|lines| - 1];
      BatchOutputMeaning(init, classify);
      KeptSnoc(init, last, classify);
      assert init + [last] == lines;
      if !NoFailure(init, classify) {
        var i :| 0 <= i < |init| && classify(init[i]).Fail?;
        assert lines[i] == init[i];
      }
      if NoFailure(init, classify) && !classify(last).Fail? {
        forall i | 0 <= i < |lines|
          ensures !classify(lines[i]).Fail?
        {
          if i < |init| { assert lines[i] == init[i]; }
        }
      }
    }
  }

  lemma {:induction false} KeptSnoc(init: seq<string>, last: string, classify: string -> LineOutcome)
    ensures Kept(init + [last], classify)
         == Kept(init, classify) + (if classify(last).Route? then [last] else [])
    decreases |init|
  {
    if |init| == 0 {
      assert init + [last] == [last];
      assert [last][1..] == [];
    } else {
      assert (init + [last])[1..] == init[1..] + [last];
      KeptSnoc(init[1..], last, classify);
    }
  }

  /**
   * Which lines are skipped: those that do not decode, and decoded objects
   * whose `proc` is missing or falsy; nothing else.
   */
  lemma SkipMeaning(baseDir: string, line: string, decode: Decoder)
    ensures Classify(baseDir, line, decode).Skip? <==>
      || decode(line).None?
      || (decode(line).value.JObj? && ("proc" !in decode(line).value.fields || !Truthy(decode(line).value.fields["proc"])))
  {
  }

  /**
   * A routed line carries its own UTF-8 followed by a newline, and goes to
   * base/procs/<proc>/<operand>.jsonl when the base is non-empty without a
   * trailing slash and neither proc nor operand is absolute; an absolute
   * proc discards the base directory.
   */
  lemma RouteMeaning(baseDir: string, line: string, decode: Decoder)
    requires Classify(baseDir, line, decode).Route?
    ensures Classify(baseDir, line, decode).payload == Utf8(line + "\n")
    ensures var log := decode(line).value;
      && log.JObj? && "proc" in log.fields && "operand" in log.fields
      && log.fields["proc"].JStr? && |log.fields["proc"].s| > 0
    ensures var log := decode(line).value;
      var proc := log.fields["proc"].s;
      var op := Str(log.fields["operand"]) + ".jsonl";
      && (|baseDir| > 0 && baseDir[|baseDir| - 1] != '/' && proc[0] != '/' && proc[|proc| - 1] != '/' && op[0] != '/' ==>
            Classify(baseDir, line, decode).path == baseDir + "/" + "procs" + "/" + proc + "/" + op)
      && (proc[0] == '/' && op[0] != '/' && proc[|proc| - 1] != '/' ==>
            Classify(baseDir, line, decode).path == proc + "/" + op)
  {
    var log := decode(line).value;
    OutPathMeaning(baseDir, log.fields["proc"].s, Str(log.fields["operand"]) + ".jsonl");
  }

  /** The routed path for a proc and an operand file name, in the two layouts the joins produce. */
  lemma OutPathMeaning(baseDir: string, proc: string, op: string)
    requires |proc| > 0 && |op| > 0
    ensures |baseDir| > 0 && baseDir[|baseDir| - 1] != '/' && proc[0] != '/' && proc[|proc| - 1] != '/' && op[0] != '/' ==>
      PathJoin(PathJoin(PathJoin(baseDir, "procs"), proc), op) == baseDir + "/" + "procs" + "/" + proc + "/" + op
    ensures proc[0] == '/' && op[0] != '/' && proc[|proc| - 1] != '/' ==>
      PathJoin(PathJoin(PathJoin(baseDir, "procs"), proc), op) == proc + "/" + op
  {
    var p1 := PathJoin(baseDir, "procs");
    assert |p1| > 0 && p1[|p1| - 1] == 's';
  }

  /** The concatenated payloads of a batch are the UTF-8 of its kept lines, each ended by a newline. */
  lemma {:induction false} PayloadsConcat(baseDir: string, lines: seq<string>, decode: Decoder)
    requires BatchOutput(lines, LineClassifier(baseDir, decode)).Some?
    ensures var classify := LineClassifier(baseDir, decode);
      Concat(Payloads(BatchOutput(lines, classify).value)) == Utf8(Terminated(Kept(lines, classify)))
    decreases |lines|
  {
    var classify := LineClassifier(baseDir, decode);
    if |lines| > 0 {
      var init := lines[..|lines| - 1];
      var last := lines[|lines| - 1];
      PayloadsConcat(baseDir, init, decode);
      KeptSnoc(init, last, classify);
      assert init + [last] == lines;
      var out := BatchOutput(init, classify).value;
      if classify(last).Route? {
        var b := classify(last).payload;
        RouteMeaning(baseDir, last, decode);
        PayloadsSnoc(out, (classify(last).path, b));
        ConcatSnoc(Payloads(out), b);
        TerminatedSnoc(Kept(init, classify), last);
        Utf8Append(Terminated(Kept(init, classify)), last + "\n");
      } else {
        assert Kept(init, classify) + [] == Kept(init, classify);
      }
    }
  }

  function Payloads(out: seq<Routed>): seq<seq<byte>>
  {
    seq(|out|, j requires 0 <= j < |out| => out[j].1)
  }

  lemma PayloadsSnoc(out: seq<Routed>, x: Routed)
    ensures Payloads(out + [x]) == Payloads(out) + [x.1]
  {
  }

  /** Lines each followed by a newline. */
  function Terminated(ls: seq<string>): string
  {
    if |ls| == 0 then [] else ls[0] + "\n" + Terminated(ls[1..])
  }

  lemma {:induction false} TerminatedSnoc(ls: seq<string>, l: string)
    ensures Terminated(ls + [l]) == Terminated(ls) + (l + "\n")
    decreases |ls|
  {
    if |ls| == 0 {
      assert ls + [l] == [l];
      assert [l][1..] == [];
    } else {
      assert (ls + [l])[1..] == ls[1..] + [l];
      TerminatedSnoc(ls[1..], l);
    }
  }

  /** Classifying a batch in two halves gives the output of classifying it whole. */
  lemma {:induction false} BatchOutputAppend(a: seq<string>, b: seq<string>, classify: string -> LineOutcome)
    ensures BatchOutput(a + b, classify) ==
      if BatchOutput(a, classify).Some? && BatchOutput(b, classify).Some? then
        Some(BatchOutput(a, classify).value + BatchOutput(b, classify).value)
      else None
    decreases |b|
  {
    if |b| == 0 {
      assert a + b == a;
      if BatchOutput(a, classify).Some? {
        assert BatchOutput(a, classify).value + [] == BatchOutput(a, classify).value;
      }
    } else {
      var init := b[..|b| - 1];
      BatchOutputAppend(a, init, classify);
      assert (a + b)[..|a + b| - 1] == a + init;
      assert (a + b)[|a + b| - 1] == b[|b| - 1];
      if BatchOutput(a, classify).Some? && BatchOutput(init, classify).Some?
         && classify(b[|b| - 1]).Route? {
        var c := classify(b[|b| - 1]);
        var oa := BatchOutput(a, classify).value;
        var oi := BatchOutput(init, classify).value;
        assert oa + oi + [(c.path, c.payload)] == oa + (oi + [(c.path, c.payload)]);
      }
    }
  }

  // ---------------------------------------------------------------------
  // Writer queues: get_writer_queue and the puts of index_logs
  // ---------------------------------------------------------------------

  type Queues = map<string, seq<seq<byte>>>

  /** The queues after `get_writer_queue(path).put(raw)`. */
  function Put(qs: Queues, route: (string, seq<byte>)): Queues
  {
    qs[route.0 := (if route.0 in qs then qs[route.0] else []) + [route.1]]
  }

  /** The queues after putting every pair of a batch output, in order. */
  function PutAll(qs: Queues, out: seq<(string, seq<byte>)>): Queues
    decreases |out|
  {
    if |out| == 0 then qs else Put(PutAll(qs, out[..|out| - 1]), out[|out| - 1])
  }

  lemma PutAllStep(qs: Queues, out: seq<(string, seq<byte>)>, i: nat)
    requires i < |out|
    ensures PutAll(qs, out[..i + 1]) == Put(PutAll(qs, out[..i]), out[i])
  {
    assert out[..i + 1][..i] == out[..i];
  }

  /** The payloads of `out` bound for `path`, in order. */
  function RoutedTo(out: seq<(string, seq<byte>)>, path: string): seq<seq<byte>>
    decreases |out|
  {
    if |out| == 0 then []
    else RoutedTo(out[..|out| - 1], path) + (if out[|out| - 1].0 == path then [out[|out| - 1].1] else [])
  }

  /** The paths that occur in `out`. */
  function Paths(out: seq<(string, seq<byte>)>): set<string>
  {
    set j | 0 <= j < |out| :: out[j].0
  }

  /**
   * Putting a batch output creates a queue exactly for the paths it uses that
   * had none, and appends to every queue exactly the payloads routed to it, in order.
   */
  lemma {:induction false} PutAllMeaning(qs: Queues, out: seq<(string, seq<byte>)>, path: string)
    ensures PutAll(qs, out).Keys == qs.Keys + Paths(out)
    ensures path !in Paths(out) ==> RoutedTo(out, path) == []
    ensures path in PutAll(qs, out) ==>
      PutAll(qs, out)[path] == (if path in qs then qs[path] else []) + RoutedTo(out, path)
    decreases |out|
  {
    if |out| > 0 {
      var init := out[..|out| - 1];
      PutAllMeaning(qs, init, path);
      PathsSnoc(out);
    } else {
      assert Paths(out) == {};
    }
  }

  lemma PathsSnoc(out: seq<(string, seq<byte>)>)
    requires |out| > 0
    ensures Paths(out) == Paths(out[..|out| - 1]) + {out[|out| - 1].0}
  {
    var init := out[..|out| - 1];
    forall p | p in Paths(out) ensures p in Paths(init) + {out[|out| - 1].0} {
      var j :| 0 <= j < |out| && out[j].0 == p;
      if j < |init| { assert init[j] == out[j]; }
    }
    forall p | p in Paths(init) ensures p in Paths(out) {
      var j :| 0 <= j < |init| && init[j].0 == p;
      assert out[j] == init[j];
    }
  }

  lemma {:induction false} PutAllAppend(qs: Queues, a: seq<(string, seq<byte>)>, b: seq<(string, seq<byte>)>)
    ensures PutAll(qs, a + b) == PutAll(PutAll(qs, a), b)
    decreases |b|
  {
    if |b| == 0 {
      assert a + b == a;
    } else {
      PutAllAppend(qs, a, b[..|b| - 1]);
      assert (a + b)[..|a + b| - 1] == a + b[..|b| - 1];
      assert (a + b)[|a + b| - 1] == b[|b| - 1];
    }
  }

  /**
   * The module's `writer_queues` and `writer_processes`: a queue is named by
   * its path and holds what has been put on it; `started` lists the writer
   * processes in the order they were started.
   */
  class Registry {
    var queues: Queues
    var started: seq<string>

    /** One queue and one process per path, and no path started twice. */
    predicate Valid()
      reads this
    {
      && queues.Keys == (set p | p in started)
      && (forall i, j :: 0 <= i < j < |started| ==> started[i] != started[j])
    }

    constructor ()
      ensures Valid() && queues == map[] && started == []
    {
      queues := map[];
      started := [];
    }

    /**
     * `get_writer_queue`: an unknown path gets an empty queue and a started
     * writer; a known path keeps its queue and no writer is started.
     */
    method GetWriterQueue(path: string)
      requires Valid()
      modifies this
      ensures Valid() && path in queues
      ensures old(path in queues) ==> queues == old(queues) && started == old(started)
      ensures old(path !in queues) ==> queues == old(queues)[path := []] && started == old(started) + [path]
    {
      if path !in queues {
        ghost var before := started;
        queues := queues[path := []];
        started := started + [path];
        assert (set p | p in started) == (set p | p in before) + {path};
        forall i | 0 <= i < |before| ensures before[i] != path {
          assert before[i] in (set p | p in before);
        }
      }
    }

    /** The inner loop of index_logs: every pair of a batch output is put on its path's queue. */
    method Dispatch(out: seq<(string, seq<byte>)>)
      requires Valid()
      modifies this
      ensures Valid()
      ensures queues == PutAll(old(queues), out)
    {
      var i := 0;
      while i < |out|
        invariant 0 <= i <= |out|
        invariant Valid()
        invariant queues == PutAll(old(queues), out[..i])
      {
        PutAllStep(old(queues), out, i);
        var (outPath, raw) := out[i];
        GetWriterQueue(outPath);
        queues := queues[outPath := queues[outPath] + [raw]];
        i := i + 1;
      }
      assert out[..i] == out;
    }

    /** The queues hold what dispatching the lines `done` from `start` puts on them. */
    ghost predicate Dispatched(start: Queues, done: seq<string>, classify: string -> LineOutcome)
      reads this
    {
      BatchOutput(done, classify).Some? && queues == PutAll(start, BatchOutput(done, classify).value)
    }

    /**
     * One batch of index_logs: classify it and put its output on the queues.
     * When the lines dispatched so far (`done`) led from `start` to the
     * current queues, so do `done + batch` afterwards, unless the batch raised.
     */
    method FlushBatch(baseDir: string, batch: seq<string>, decode: Decoder, ghost start: Queues, ghost done: seq<string>) returns (ok: bool)
      requires Valid()
      requires Dispatched(start, done, LineClassifier(baseDir, decode))
      modifies this
      ensures Valid()
      ensures ok <==> BatchOutput(done + batch, LineClassifier(baseDir, decode)).Some?
      ensures ok ==> Dispatched(start, done + batch, LineClassifier(baseDir, decode))
    {
      ghost var classify := LineClassifier(baseDir, decode);
      var out := ProcessBatch(baseDir, batch, decode);
      BatchOutputAppend(done, batch, classify);
      if out.None? {
        return false;
      }
      PutAllAppend(start, BatchOutput(done, classify).value, out.value);
      Dispatch(out.value);
      return true;
    }

    /**
     * `index_logs` over the lines of logs.jsonl: batches of exactly
     * BatchLines lines and a final non-empty partial batch are classified and
     * dispatched in order; the result is the number of lines, or None when a
     * batch raised (the batches before it stay dispatched). `batches` records
     * how the lines were cut.
     */
    method IndexLogs(baseDir: string, lines: seq<string>, decode: Decoder) returns (count: Option<nat>, ghost batches: seq<seq<string>>)
      requires Valid()
      modifies this
      ensures Valid()
      ensures count.Some? <==> BatchOutput(lines, LineClassifier(baseDir, decode)).Some?
      ensures count.Some? ==> count.value == |lines| && queues == PutAll(old(queues), BatchOutput(lines, LineClassifier(baseDir, decode)).value)
      ensures count.Some? ==> Concat(batches) == lines
      ensures count.Some? ==> forall j :: 0 <= j < |batches| ==> 0 < |batches[j]| <= BatchLines
      ensures count.Some? ==> forall j :: 0 <= j < |batches| - 1 ==> |batches[j]| == BatchLines
    {
      ghost var start := queues;
      ghost var classify := LineClassifier(baseDir, decode);
      var c: nat := 0;
      var batch: seq<string> := [];
      batches := [];
      var i := 0;
      assert lines[..0] == [];
      while i < |lines|
        invariant 0 <= c <= i <= |lines|
        invariant Valid()
        invariant batch == lines[c..i] && |batch| < BatchLines
        invariant Concat(batches) == lines[..c] && FullBatches(batches)
        invariant Dispatched(start, lines[..c], classify)
      {
        batch := batch + [lines[i]];
        i := i + 1;
        if |batch| >= BatchLines {
          assert lines[..c] + batch == lines[..i];
          var ok := FlushBatch(baseDir, batch, decode, start, lines[..c]);
          if !ok {
            FailSticks(lines, i, classify);
            return None, batches;
          }
          ConcatSnoc(batches, batch);
          batches := batches + [batch];
          c := i;
          batch := [];
        }
      }
      if |batch| > 0 {
        assert lines[..c] + batch == lines;
        var ok := FlushBatch(baseDir, batch, decode, start, lines[..c]);
        if !ok {
          return None, batches;
        }
        ConcatSnoc(batches, batch);
        batches := batches + [batch];
        c := i;
      }
      assert lines[..c] == lines;
      return Some(c), batches;
    }
  }

  /** Every batch holds exactly BatchLines lines. */
  predicate FullBatches(batches: seq<seq<string>>)
  {
    forall j :: 0 <= j < |batches| ==> |batches[j]| == BatchLines
  }

  // ---------------------------------------------------------------------
  // The writer process
  // ---------------------------------------------------------------------

  /** A writer between two queue items: its buffer, the buffer's byte count, and the chunks written so far. */
  datatype WriterState = WriterState(buf: seq<seq<byte>>, totalBytes: nat, writes: seq<seq<byte>>)

  function TotalLen(buf: seq<seq<byte>>): nat
  {
    |Concat(buf)|
  }

  /** One item taken from the queue: buffered, and the buffer written out once it holds at least WriteBatchBytes. */
  function Receive(s: WriterState, item: seq<byte>): WriterState
  {
    var buf := s.buf + [item];
    var total := s.totalBytes + |item|;
    if total >= WriteBatchBytes then WriterState([], 0, s.writes + [Concat(buf)])
    else WriterState(buf, total, s.writes)
  }

  /** The sentinel: a non-empty buffer is written out. */
  function Shutdown(s: WriterState): WriterState
  {
    if |s.buf| > 0 then WriterState([], 0, s.writes + [Concat(s.buf)]) else s
  }

  /** The writer after the given items, from an empty buffer. */
  function Feed(items: seq<seq<byte>>): WriterState
    decreases |items|
  {
    if |items| == 0 then WriterState([], 0, []) else Receive(Feed(items[..|items| - 1]), items[|items| - 1])
  }

  /** What the writer keeps true between items. */
  predicate Buffered(s: WriterState, items: seq<seq<byte>>)
  {
    && s.totalBytes == TotalLen(s.buf)
    && s.totalBytes < WriteBatchBytes
    && Concat(s.writes) + Concat(s.buf) == Concat(items)
    && forall j :: 0 <= j < |s.writes| ==> |s.writes[j]| >= WriteBatchBytes
  }

  /**
   * Between items the byte count matches the buffer and stays below the
   * threshold, every chunk written so far holds at least WriteBatchBytes
   * bytes, and what was written followed by the buffer is exactly what was received.
   */
  lemma {:induction false} FeedBuffered(items: seq<seq<byte>>)
    ensures Buffered(Feed(items), items)
    decreases |items|
  {
    if |items| > 0 {
      var init := items[..|items| - 1];
      var item := items[|items| - 1];
      FeedBuffered(init);
      var s := Feed(init);
      ConcatSnoc(s.buf, item);
      ConcatSnoc(init, item);
      assert init + [item] == items;
      if s.totalBytes + |item| >= WriteBatchBytes {
        ConcatSnoc(s.writes, Concat(s.buf + [item]));
        assert Concat<seq<byte>>([]) == [];
      } else {
        assert Concat(s.writes) + (Concat(s.buf) + item) == (Concat(s.writes) + Concat(s.buf)) + item;
      }
    }
  }

  /** After the sentinel every received byte has been written, in order, and the buffer is empty. */
  lemma ShutdownWritesAll(items: seq<seq<byte>>)
    ensures Concat(Shutdown(Feed(items)).writes) == Concat(items)
    ensures Shutdown(Feed(items)).buf == []
  {
    FeedBuffered(items);
    var s := Feed(items);
    if |s.buf| > 0 {
      ConcatSnoc(s.writes, Concat(s.buf));
    } else {
      assert Concat(s.buf) == [];
    }
  }

  /** `writer_process_func`'s state: the buffer, its byte count, and the chunks written to the file. */
  class Writer {
    var buf: seq<seq<byte>>
    var totalBytes: nat
    var writes: seq<seq<byte>>

    function State(): WriterState
      reads this
    {
      WriterState(buf, totalBytes, writes)
    }

    constructor ()
      ensures State() == Feed([])
    {
      buf := [];
      totalBytes := 0;
      writes := [];
    }

    /** Lines 36-42: append, count, and flush once the threshold is reached. */
    method Take(item: seq<byte>)
      modifies this
      ensures State() == Receive(old(State()), item)
    {
      buf := buf + [item];
      totalBytes := totalBytes + |item|;
      if totalBytes >= WriteBatchBytes {
        writes := writes + [Concat(buf)];
        buf := [];
        totalBytes := 0;
      }
    }

    /**
     * The loop of writer_process_func over what its queue delivers (None is
     * the sentinel). With a sentinel the writer stops at the first one,
     * flushes, and has written exactly the items before it; without one it is
     * still waiting, having written the full chunks only.
     */
    method Serve(queue: seq<Option<seq<byte>>>) returns (stopped: bool, ghost taken: seq<seq<byte>>)
      requires State() == Feed([])
      modifies this
      ensures stopped ==> State() == Shutdown(Feed(taken)) && Concat(writes) == Concat(taken)
      ensures !stopped ==> State() == Feed(taken) && |taken| == |queue|
      ensures |taken| <= |queue| && forall j :: 0 <= j < |taken| ==> queue[j] == Some(taken[j])
      ensures stopped <==> |taken| < |queue|
      ensures stopped ==> queue[|taken|] == None
    {
      taken := [];
      var i := 0;
      while i < |queue|
        invariant 0 <= i <= |queue|
        invariant |taken| == i
        invariant forall j :: 0 <= j < i ==> queue[j] == Some(taken[j])
        invariant State() == Feed(taken)
      {
        var item := queue[i];
        if item.None? {
          if |buf| > 0 {
            writes := writes + [Concat(buf)];
            buf := [];
            totalBytes := 0;
          }
          ShutdownWritesAll(taken);
          return true, taken;
        }
        Take(item.value);
        assert (taken + [item.value])[..|taken|] == taken;
        taken := taken + [item.value];
        i := i + 1;
      }
      return false, taken;
    }
  }

  // ---------------------------------------------------------------------
  // read_lines_mmap
  // ---------------------------------------------------------------------

  const Newline: byte := 10

  /** Lines each followed by a newline byte. */
  function Rejoin(lines: seq<seq<byte>>): seq<byte>
  {
    if |lines| == 0 then [] else lines[0] + [Newline] + Rejoin(lines[1..])
  }

  lemma {:induction false} RejoinSnoc(lines: seq<seq<byte>>, l: seq<byte>)
    ensures Rejoin(lines + [l]) == Rejoin(lines) + (l + [Newline])
    decreases |lines|
  {
    if |lines| == 0 {
      assert lines + [l] == [l];
      assert [l][1..] == [];
    } else {
      assert (lines + [l])[1..] == lines[1..] + [l];
      RejoinSnoc(lines[1..], l);
    }
  }

  /**
   * `read_lines_mmap` before UTF-8 decoding. Mapping an empty file raises
   * ValueError (None). Otherwise: repeated `readline` (up to and including
   * the next newline, or to the end), stopping at the empty read, each line
   * with its newline stripped. The lines hold no newline, and putting a
   * newline after each gives back the file, with one more newline when the
   * file does not end with one.
   */
  method ReadLinesMmap(data: seq<byte>) returns (result: Option<seq<seq<byte>>>)
    ensures result.None? <==> |data| == 0
    ensures result.Some? ==> forall i, j :: 0 <= i < |result.value| && 0 <= j < |result.value[i]| ==> result.value[i][j] != Newline
    ensures result.Some? && data[|data| - 1] == Newline ==> Rejoin(result.value) == data
    ensures result.Some? && data[|data| - 1] != Newline ==> Rejoin(result.value) == data + [Newline]
  {
    if |data| == 0 {
      return None;
    }
    var lines := [];
    var pos := 0;
    while pos < |data|
      invariant 0 <= pos <= |data|
      invariant forall i, j :: 0 <= i < |lines| && 0 <= j < |lines[i]| ==> lines[i][j] != Newline
      invariant Rejoin(lines) == data[..pos]
      invariant pos > 0 ==> data[pos - 1] == Newline
      decreases |data| - pos
    {
      var end := pos;
      while end < |data| && data[end] != Newline
        invariant pos <= end <= |data|
        invariant forall j :: pos <= j < end ==> data[j] != Newline
      {
        end := end + 1;
      }
      var line := data[pos..end];
      RejoinSnoc(lines, line);
      if end < |data| {
        assert data[..end + 1] == data[..pos] + (line + [Newline]);
        lines := lines + [line];
        pos := end + 1;
      } else {
        assert data + [Newline] == data[..pos] + (line + [Newline]);
        lines := lines + [line];
        return Some(lines);
      }
    }
    assert data[..pos] == data;
    return Some(lines);
  }
}
