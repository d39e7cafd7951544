/**
 * The I/O record builder (src/logreaders/io.py): an ENTER and its EXIT become
 * one I/O log row when the ENTER's fd and the EXIT's return value are both
 * non-negative.
 */
module IoReader {
  import opened Wrappers
  import opened Strings
  import opened LogObjects

  /** An `IOLog` row, without its datetime strings and floating-point latency. */
  datatype IOLog = IOLog(
    enTimestamp: int, exTimestamp: int, pid: string, tid: string, proc: string,
    eventName: string, fd: int, ret: int, countbytes: int)

  /** The conditions under which `build_record` gets past its validation without raising. */
  predicate Validated(en: TraceObj, ex: TraceObj)
  {
    && SpecInt(en.spec, "fd", -1).Some? && SpecInt(en.spec, "fd", -1).value >= 0
    && SpecInt(ex.spec, "ret", -1).Some? && SpecInt(ex.spec, "ret", -1).value >= 0
  }

  /**
   * `build_record(en_obj, ex_obj)`: None iff fd (ENTER spec, default -1) or ret
   * (EXIT spec, default -1) is negative; otherwise a row with that fd and ret,
   * `count` of the ENTER (default 0), identity fields of the ENTER and each
   * side's own timestamp. A value `int()` cannot read raises.
   */
  function BuildRecord(en: TraceObj, ex: TraceObj): (r: Built<IOLog>)
    ensures r.NoRecord? <==>
      (SpecInt(en.spec, "fd", -1).Some? && SpecInt(ex.spec, "ret", -1).Some?
       && (SpecInt(en.spec, "fd", -1).value < 0 || SpecInt(ex.spec, "ret", -1).value < 0))
    ensures r.Record? <==>
      (Validated(en, ex) && PyParseInt(en.timestamp).Some? && PyParseInt(ex.timestamp).Some?
       && SpecInt(en.spec, "count", 0).Some?)
    ensures r.Record? ==>
      && Some(r.record.fd) == SpecInt(en.spec, "fd", -1) && r.record.fd >= 0
      && Some(r.record.ret) == SpecInt(ex.spec, "ret", -1) && r.record.ret >= 0
      && Some(r.record.countbytes) == SpecInt(en.spec, "count", 0)
      && Some(r.record.enTimestamp) == PyParseInt(en.timestamp)
      && Some(r.record.exTimestamp) == PyParseInt(ex.timestamp)
      && r.record.pid == en.pid && r.record.tid == en.tid && r.record.proc == en.proc
      && r.record.eventName == en.operand
  {
    match SpecInt(en.spec, "fd", -1)
    case None => Raised
    case Some(fd) =>
      match SpecInt(ex.spec, "ret", -1)
      case None => Raised
      case Some(ret) =>
        if fd < 0 || ret < 0 then NoRecord
        else
          match (PyParseInt(en.timestamp), PyParseInt(ex.timestamp), SpecInt(en.spec, "count", 0))
          case (Some(t0), Some(t1), Some(count)) =>
            Record(IOLog(t0, t1, en.pid, en.tid, en.proc, en.operand, fd, ret, count))
          case _ => Raised
  }

  /** An ENTER without `fd` never yields a row: the default -1 fails the check. */
  lemma MissingFdRejected(en: TraceObj, ex: TraceObj)
    requires "fd" !in en.spec && SpecInt(ex.spec, "ret", -1).Some?
    ensures BuildRecord(en, ex) == NoRecord
  {
  }

  /** A decimal fd, ret and count read back into the row unchanged. */
  lemma DecimalFieldsKept(en: TraceObj, ex: TraceObj, fd: nat, ret: nat, count: nat)
    requires en.spec == map["fd" := NatToDecimal(fd), "count" := NatToDecimal(count)]
    requires "ret" in ex.spec && ex.spec["ret"] == NatToDecimal(ret)
    requires PyParseInt(en.timestamp).Some? && PyParseInt(ex.timestamp).Some?
    ensures BuildRecord(en, ex).Record?
    ensures BuildRecord(en, ex).record.fd == fd && BuildRecord(en, ex).record.ret == ret
    ensures BuildRecord(en, ex).record.countbytes == count
  {
    PyParseDecimal(fd);
    PyParseDecimal(ret);
    PyParseDecimal(count);
  }
}
