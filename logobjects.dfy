/**
 * The decoded trace objects the Python log readers (src/logreaders/) pair up:
 * one ENTER or EXIT line of a syscall, with its key=value spec. Fields are
 * kept as the text the trace carries; `int()` is applied where the readers
 * apply it.
 */
module LogObjects {
  import opened Wrappers
  import opened Strings

  datatype TraceObj = TraceObj(
    timestamp: string, pid: string, tid: string, proc: string,
    status: string, operand: string, spec: map<string, string>)

  /** What a `build_record` call ends in: `None`, a record, or an exception from `int()`. */
  datatype Built<R> = NoRecord | Record(record: R) | Raised

  /** `int(spec.get(key, default))`: the default when the key is absent, None when `int()` raises. */
  function SpecInt(spec: map<string, string>, key: string, default: int): (r: Option<int>)
    ensures key !in spec ==> r == Some(default)
    ensures key in spec ==> r == PyParseInt(spec[key])
  {
    if key in spec then PyParseInt(spec[key]) else Some(default)
  }

  /** A stored decimal reads back as its number, and a missing key as the default. */
  lemma SpecIntMeaning(spec: map<string, string>, key: string, default: int, n: nat)
    ensures SpecInt(spec[key := NatToDecimal(n)], key, default) == Some(n)
    ensures SpecInt(spec - {key}, key, default) == Some(default)
  {
    PyParseDecimal(n);
  }

  /** `make_key`: the pairing key is the (pid, tid) pair only; status and operand are not part of it. */
  function MakeKey(obj: TraceObj): (string, string)
  {
    (obj.pid, obj.tid)
  }
}
