/**
 * The metadata record builder (src/logreaders/meta.py): an ENTER and its EXIT
 * become one metadata row when the EXIT's return value is non-negative; the
 * file name comes from the ENTER.
 */
module MetaReader {
  import opened Wrappers
  import opened Strings
  import opened LogObjects

  /** A `MetaLog` row, without its datetime strings and floating-point latency. */
  datatype MetaLog = MetaLog(
    enTimestamp: int, exTimestamp: int, pid: string, tid: string, proc: string,
    eventName: string, fname: string, ret: int)

  /** `spec.get("fname", "unknown")`. */
  function FileName(spec: map<string, string>): (f: string)
    ensures "fname" in spec ==> f == spec["fname"]
    ensures "fname" !in spec ==> f == "unknown"
  {
    if "fname" in spec then spec["fname"] else "unknown"
  }

  /**
   * `build_record(en_obj, ex_obj)`: None iff the EXIT's ret (default -1) is
   * negative, with no fd check; otherwise a row with that ret, the ENTER's
   * file name and identity fields and each side's own timestamp.
   */
  function BuildRecord(en: TraceObj, ex: TraceObj): (r: Built<MetaLog>)
    ensures r.NoRecord? <==> (SpecInt(ex.spec, "ret", -1).Some? && SpecInt(ex.spec, "ret", -1).value < 0)
    ensures r.Record? <==>
      (SpecInt(ex.spec, "ret", -1).Some? && SpecInt(ex.spec, "ret", -1).value >= 0
       && PyParseInt(en.timestamp).Some? && PyParseInt(ex.timestamp).Some?)
    ensures r.Record? ==>
      && Some(r.record.ret) == SpecInt(ex.spec, "ret", -1) && r.record.ret >= 0
      && r.record.fname == FileName(en.spec)
      && Some(r.record.enTimestamp) == PyParseInt(en.timestamp)
      && Some(r.record.exTimestamp) == PyParseInt(ex.timestamp)
      && r.record.pid == en.pid && r.record.tid == en.tid && r.record.proc == en.proc
      && r.record.eventName == en.operand
  {
    match SpecInt(ex.spec, "ret", -1)
    case None => Raised
    case Some(ret) =>
      if ret < 0 then NoRecord
      else
        match (PyParseInt(en.timestamp), PyParseInt(ex.timestamp))
        case (Some(t0), Some(t1)) =>
          Record(MetaLog(t0, t1, en.pid, en.tid, en.proc, en.operand, FileName(en.spec), ret))
        case _ => Raised
  }

  /** The ENTER's fd plays no part: ENTERs that differ only in `fd` give the same outcome. */
  lemma FdIgnored(en: TraceObj, ex: TraceObj, fdText: string)
    ensures BuildRecord(en.(spec := en.spec["fd" := fdText]), ex) == BuildRecord(en, ex)
  {
    assert FileName(en.spec["fd" := fdText]) == FileName(en.spec);
  }
}
