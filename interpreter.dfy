/**
 * The trace interpreter (include/components/interpreter/interpreter.go and
 * handlers.go): each line of a chunk file is cut on "####" into a timestamp,
 * a process name, a syscall operand and a "****"-separated key=value block;
 * the operand selects one of five handlers, which keep the fd table and the
 * address space up to date and report I/O and page-fault events with the
 * file they touched and their duration.
 */
module Interpreter {
  import opened Wrappers
  import opened Strings
  import opened KvMaps
  import opened Clock
  import opened Tables

  const LineSep: string := "####"
  const KvSep: string := "****"

  // ---------------------------------------------------------------------
  // Lines
  // ---------------------------------------------------------------------

  /** The first four "####"-separated fields of a line. */
  datatype ChunkLine = ChunkLine(ts: string, proc: string, event: string, kvText: string)

  /** interpreter.go:148-157: a line with fewer than four fields is skipped; fields after the fourth are ignored. */
  function ParseLine(line: string): Option<ChunkLine>
  {
    var parts := Split(line, LineSep);
    if |parts| < 4 then None else Some(ChunkLine(parts[0], parts[1], parts[2], parts[3]))
  }

  /** The text of the four fields with "####" between them. */
  function LineText(cl: ChunkLine): string
  {
    cl.ts + (LineSep + (cl.proc + (LineSep + (cl.event + (LineSep + cl.kvText)))))
  }

  /** `x` is a prefix of `y`. */
  predicate IsPrefix(x: string, y: string)
  {
    |x| <= |y| && y[..|x|] == x
  }

  lemma PrefixExtend(a: string, sep: string, b: string, c: string)
    requires IsPrefix(b, c)
    ensures IsPrefix(a + (sep + b), a + (sep + c))
  {
    assert (a + (sep + c))[..|a + (sep + b)|] == a + (sep + c[..|b|]);
  }

  /** Joined pieces begin with the first piece, followed by `sep` and the join of the rest when there is more. */
  lemma JoinHead(parts: seq<string>, sep: string)
    requires |parts| >= 1
    ensures IsPrefix(parts[0], Join(parts, sep))
    ensures |parts| >= 2 ==> Join(parts, sep) == parts[0] + (sep + Join(parts[1..], sep))
  {
    if |parts| >= 2 {
      var x, y := parts[0], Join(parts[1..], sep);
      assert x + sep + y == x + (sep + y);
    }
  }

  /** Joined pieces begin with the first four pieces and `sep` between them. */
  lemma JoinPrefix4(parts: seq<string>, sep: string)
    requires |parts| >= 4
    ensures IsPrefix(parts[0] + (sep + (parts[1] + (sep + (parts[2] + (sep + parts[3]))))), Join(parts, sep))
  {
    var p1, p2, p3 := parts[1..], parts[2..], parts[3..];
    assert p1[1..] == p2 && p2[1..] == p3;
    JoinHead(p3, sep);
    JoinHead(p2, sep);
    JoinHead(p1, sep);
    JoinHead(parts, sep);
    PrefixExtend(parts[2], sep, parts[3], Join(p3, sep));
    PrefixExtend(parts[1], sep, parts[2] + (sep + parts[3]), Join(p2, sep));
    PrefixExtend(parts[0], sep, parts[1] + (sep + (parts[2] + (sep + parts[3]))), Join(p1, sep));
  }

  /** Four fields without the separator's first character split back into themselves. */
  lemma SplitFour(a: string, b: string, c: string, d: string, sep: string)
    requires |sep| > 0 && Clear(a, sep) && Clear(b, sep) && Clear(c, sep) && Clear(d, sep)
    ensures Split(a + (sep + (b + (sep + (c + (sep + d))))), sep) == [a, b, c, d]
  {
    SplitClear(d, sep);
    SplitFirst(c, d, sep);
    SplitFirst(b, c + (sep + d), sep);
    SplitFirst(a, b + (sep + (c + (sep + d))), sep);
  }

  /** With more text after a fourth separator, the first four pieces are still the four fields. */
  lemma SplitFourMore(a: string, b: string, c: string, d: string, sep: string, more: string)
    requires |sep| > 0 && Clear(a, sep) && Clear(b, sep) && Clear(c, sep) && Clear(d, sep)
    ensures var pieces := Split(a + (sep + (b + (sep + (c + (sep + (d + (sep + more))))))), sep);
      |pieces| >= 4 && pieces[..4] == [a, b, c, d]
  {
    var tail := Split(more, sep);
    SplitFirst(d, more, sep);
    SplitFirst(c, d + (sep + more), sep);
    SplitFirst(b, c + (sep + (d + (sep + more))), sep);
    SplitFirst(a, b + (sep + (c + (sep + (d + (sep + more))))), sep);
    assert ([a] + ([b] + ([c] + ([d] + tail))))[..4] == [a, b, c, d];
  }

  /** Three fields without the separator's first character split into three pieces. */
  lemma SplitThree(a: string, b: string, c: string, sep: string)
    requires |sep| > 0 && Clear(a, sep) && Clear(b, sep) && Clear(c, sep)
    ensures Split(a + (sep + (b + (sep + c))), sep) == [a, b, c]
  {
    SplitClear(c, sep);
    SplitFirst(b, c, sep);
    SplitFirst(a, b + (sep + c), sep);
  }

  /**
   * Soundness: a parsed line starts with its four fields joined by "####",
   * and none of the fields holds "####".
   */
  lemma ParseLineSound(line: string)
    ensures ParseLine(line).Some? ==>
      var cl := ParseLine(line).value;
      && IsPrefix(LineText(cl), line)
      && Free(cl.ts, LineSep) && Free(cl.proc, LineSep) && Free(cl.event, LineSep) && Free(cl.kvText, LineSep)
  {
    var parts := Split(line, LineSep);
    if |parts| >= 4 {
      JoinSplit(line, LineSep);
      JoinPrefix4(parts, LineSep);
    }
  }

  /**
   * Completeness: four fields without '#' joined by "####" parse back to
   * themselves, with or without further fields after them.
   */
  lemma ParseLineComplete(cl: ChunkLine, more: string)
    requires Clear(cl.ts, LineSep) && Clear(cl.proc, LineSep) && Clear(cl.event, LineSep) && Clear(cl.kvText, LineSep)
    ensures ParseLine(LineText(cl)) == Some(cl)
    ensures ParseLine(cl.ts + (LineSep + (cl.proc + (LineSep + (cl.event + (LineSep + (cl.kvText + (LineSep + more)))))))) == Some(cl)
  {
    SplitFour(cl.ts, cl.proc, cl.event, cl.kvText, LineSep);
    SplitFourMore(cl.ts, cl.proc, cl.event, cl.kvText, LineSep, more);
  }

  /** A line with only three fields is skipped. */
  lemma ThreeFieldsSkipped(ts: string, proc: string, event: string)
    requires Clear(ts, LineSep) && Clear(proc, LineSep) && Clear(event, LineSep)
    ensures ParseLine(ts + (LineSep + (proc + (LineSep + event)))) == None
  {
    SplitThree(ts, proc, event, LineSep);
  }

  // ---------------------------------------------------------------------
  // The key=value block
  // ---------------------------------------------------------------------

  /**
   * interpreter.go:162-166: a non-empty piece that splits on "=" into exactly
   * two parts gives the pair of both parts with spaces trimmed.
   */
  function KvEntry(part: string): Option<(string, string)>
  {
    if |part| == 0 then None
    else
      var data := Split(part, "=");
      if |data| == 2 then Some((Trim(data[0], Blank), Trim(data[1], Blank))) else None
  }

  /** The kv map of a block: its entries assigned in order. */
  function KvOfText(kvText: string): map<string, string>
  {
    BuildMap(Pairs(KvPieces(kvText), KvEntry))
  }

  /** The "****"-separated pieces of a block. */
  function KvPieces(kvText: string): seq<string>
  {
    Split(kvText, KvSep)
  }

  /** A string free of a one-character separator does not contain that character. */
  lemma FreeIsClear(s: string, sep: string)
    requires |sep| == 1 && Free(s, sep)
    ensures Clear(s, sep)
  {
    forall i | 0 <= i < |s| ensures s[i] != sep[0] {
      assert !OccursAt(s, sep, i);
      assert s[i..i + 1] == [s[i]];
      assert sep == [sep[0]];
    }
  }

  /** An accepted piece holds exactly one '=', and the pair is its two sides trimmed. */
  lemma KvEntrySound(part: string)
    ensures KvEntry(part).Some? ==>
      var i := |Split(part, "=")[0]|;
      && i < |part| && part[i] == '='
      && Clear(part[..i], "=") && Clear(part[i + 1..], "=")
      && KvEntry(part).value == (Trim(part[..i], Blank), Trim(part[i + 1..], Blank))
  {
    if KvEntry(part).Some? {
      var data := Split(part, "=");
      JoinSplit(part, "=");
      assert data[1..] == [data[1]];
      assert part == data[0] + "=" + data[1];
      var i := |data[0]|;
      assert part[..i] == data[0];
      assert part[i + 1..] == data[1];
      FreeIsClear(data[0], "=");
      FreeIsClear(data[1], "=");
    }
  }

  /** A key and a value without '=' read back trimmed. */
  lemma KvEntryComplete(k: string, v: string)
    requires Clear(k, "=") && Clear(v, "=")
    ensures KvEntry(k + ("=" + v)) == Some((Trim(k, Blank), Trim(v, Blank)))
  {
    SplitClear(v, "=");
    SplitFirst(k, v, "=");
  }

  /** A value that holds '=' makes the whole piece be dropped. */
  lemma KvEntryDropsEquals(k: string, v: string, j: nat)
    requires Clear(k, "=") && OccursAt(v, "=", j)
    ensures KvEntry(k + ("=" + v)) == None
  {
    SplitFirst(k, v, "=");
    SplitOccurs(v, "=", j);
  }

  /**
   * A key is in the kv map iff some "****" piece is accepted with that key,
   * and it maps to the value of the last such piece.
   */
  lemma KvOfTextMeaning(kvText: string, key: string)
    ensures key in KvOfText(kvText) <==>
      exists i :: 0 <= i < |KvPieces(kvText)| && KvEntry(KvPieces(kvText)[i]).Some? && KvEntry(KvPieces(kvText)[i]).value.0 == key
    ensures forall i :: IsLastAccepted(KvPieces(kvText), KvEntry, key, i) ==>
      KvOfText(kvText)[key] == KvEntry(KvPieces(kvText)[i]).value.1
  {
    EntriesMeaning(KvPieces(kvText), key);
  }

  lemma EntriesMeaning(parts: seq<string>, key: string)
    ensures key in BuildMap(Pairs(parts, KvEntry)) <==>
      exists i :: 0 <= i < |parts| && KvEntry(parts[i]).Some? && KvEntry(parts[i]).value.0 == key
    ensures forall i :: IsLastAccepted(parts, KvEntry, key, i) ==> BuildMap(Pairs(parts, KvEntry))[key] == KvEntry(parts[i]).value.1
  {
    PairsLastWins(parts, KvEntry, key);
  }

  /** interpreter.go:160-168: the kv map built in place, piece by piece. */
  method BuildKv(kvText: string) returns (kv: map<string, string>)
    ensures kv == KvOfText(kvText)
  {
    var parts := KvPieces(kvText);
    kv := map[];
    var i := 0;
    assert Pairs(parts[..0], KvEntry) == [];
    assert kv == BuildMap<string, string>([]);
    while i < |parts|
      invariant 0 <= i <= |parts|
      invariant kv == BuildMap(Pairs(parts[..i], KvEntry))
    {
      var part := parts[i];
      ghost var ps := Pairs(parts[..i], KvEntry);
      PairsPrefixStep(parts, i, KvEntry);
      if |part| > 0 {
        var data := Split(part, "=");
        if |data| == 2 {
          var entry := (Trim(data[0], Blank), Trim(data[1], Blank));
          assert KvEntry(part) == Some(entry);
          BuildMapSnoc(ps, entry);
          kv := kv[entry.0 := entry.1];
        } else {
          assert KvEntry(part).None?;
          assert ps + [] == ps;
        }
      } else {
        assert KvEntry(part).None?;
        assert ps + [] == ps;
      }
      assert kv == BuildMap(Pairs(parts[..i + 1], KvEntry));
      i := i + 1;
    }
    assert parts[..i] == parts;
  }

  // ---------------------------------------------------------------------
  // Dispatch
  // ---------------------------------------------------------------------

  datatype Handler = FdTableHandler | UpdateFdHandler | IOHandler | AddressSpaceHandler | MemoryHandler

  /** interpreter.go:62-85. */
  const Handlers: map<string, Handler> := map[
    "open" := FdTableHandler, "openat" := FdTableHandler, "statfs" := FdTableHandler,
    "statx" := FdTableHandler, "newlstat" := FdTableHandler, "newstat" := FdTableHandler,
    "creat" := FdTableHandler, "close" := FdTableHandler,
    "dup" := UpdateFdHandler, "dup2" := UpdateFdHandler, "dup3" := UpdateFdHandler,
    "read" := IOHandler, "write" := IOHandler, "readv" := IOHandler, "writev" := IOHandler,
    "pread64" := IOHandler, "pwrite64" := IOHandler, "preadv" := IOHandler, "pwritev" := IOHandler,
    "mmap" := AddressSpaceHandler, "munmap" := AddressSpaceHandler,
    "page_fault_user" := MemoryHandler
  ]

  /** Which operands reach which handler; no other operand is dispatched. */
  lemma DispatchTable(op: string)
    ensures (op in Handlers && Handlers[op] == FdTableHandler) <==>
      op in {"open", "openat", "statfs", "statx", "newlstat", "newstat", "creat", "close"}
    ensures (op in Handlers && Handlers[op] == UpdateFdHandler) <==> op in {"dup", "dup2", "dup3"}
    ensures (op in Handlers && Handlers[op] == IOHandler) <==>
      op in {"read", "write", "readv", "writev", "pread64", "pwrite64", "preadv", "pwritev"}
    ensures (op in Handlers && Handlers[op] == AddressSpaceHandler) <==> op in {"mmap", "munmap"}
    ensures (op in Handlers && Handlers[op] == MemoryHandler) <==> op == "page_fault_user"
  {
  }

  // ---------------------------------------------------------------------
  // Handlers, as effects on the tables and the report
  // ---------------------------------------------------------------------

  /** Go's `kv[k]`: the empty string for a missing key. */
  function Get(kv: map<string, string>, k: string): (v: string)
    ensures k !in kv ==> v == ""
  {
    if k in kv then kv[k] else ""
  }

  /** `ret, _ := strconv.Atoi(kv["ret"])`: a missing or malformed `ret` reads as 0. */
  function Ret(kv: map<string, string>): int
  {
    GoAtoi(Get(kv, "ret"))
  }

  /** One line of the interpreter's output, before time formatting. */
  datatype Report =
    | IOReport(start: Instant, durationNs: int, proc: string, operand: string, count: string, fname: string)
    | MemoryReport(start: Instant, durationNs: int, proc: string, fname: string)

  /** The file name reported for an fd: the bound name, or "unknown (fd=<fd>)" when it is empty or unbound. */
  function FdName(fdt: FdMap, proc: string, fd: int): string
  {
    var fname := Lookup(fdt, proc, fd);
    if |fname| == 0 then "unknown (fd=" + IntToDecimal(fd) + ")" else fname
  }

  /** The event's start instant and the nanoseconds between `ToTime(ts)` and `ToTime(ts + diff)`. */
  function Start(tm: TimeManager, ts: string): Instant
  {
    ToTime(tm, GoAtoi(ts))
  }

  function Duration(tm: TimeManager, ts: string, kv: map<string, string>): int
  {
    var t := GoAtoi(ts);
    Sub(ToTime(tm, t + GoAtoi(Get(kv, "diff"))), ToTime(tm, t))
  }

  /** handlers.go:29-33,40: the reported duration is the parsed `diff` (0 when absent), whatever the reference times. */
  lemma DurationIsDiff(tm: TimeManager, ts: string, kv: map<string, string>)
    ensures Duration(tm, ts, kv) == GoAtoi(Get(kv, "diff"))
    ensures "diff" !in kv ==> Duration(tm, ts, kv) == 0
  {
    Shift(tm, GoAtoi(ts), GoAtoi(Get(kv, "diff")));
  }

  /** handlers.go:13-46. */
  function IOReports(tm: TimeManager, fdt: FdMap, ts: string, proc: string, operand: string, kv: map<string, string>): seq<Report>
  {
    if Ret(kv) < 0 then []
    else
      var fd := GoAtoi(Get(kv, "fd"));
      [IOReport(Start(tm, ts), Duration(tm, ts, kv), proc, operand, Get(kv, "count"), FdName(fdt, proc, fd))]
  }

  /** handlers.go:49-63: `close` goes to `remove`, which changes nothing; other operands bind fd `ret` to `fname`. */
  function FdTableEffect(fdt: FdMap, proc: string, operand: string, kv: map<string, string>): FdMap
  {
    if Ret(kv) < 0 then fdt
    else if operand == "close" then fdt
    else PutFd(fdt, proc, Ret(kv), Get(kv, "fname"))
  }

  /** handlers.go:66-78. */
  function UpdateFdEffect(fdt: FdMap, proc: string, kv: map<string, string>): FdMap
  {
    if Ret(kv) < 0 then fdt
    else ReplaceFd(fdt, proc, GoAtoi(Get(kv, "oldfd")), GoAtoi(Get(kv, "newfd")))
  }

  /** What `vma.search(proc, address)` may return. */
  predicate SearchOutcome(vma: VmaMap, proc: string, address: int, fd: int)
  {
    && (Mapped(vma, proc, address) ==> proc in vma && fd in vma[proc] && Hit(vma[proc][fd], address))
    && (!Mapped(vma, proc, address) ==> fd == -2)
  }

  /** handlers.go:92-117, once the search has returned `fd`. */
  function MemoryReports(tm: TimeManager, fdt: FdMap, fd: int, ts: string, proc: string, kv: map<string, string>): seq<Report>
  {
    if fd == -2 then [] else [MemoryReport(Start(tm, ts), Duration(tm, ts, kv), proc, FdName(fdt, proc, fd))]
  }

  /** handlers.go:81-118: the report after a successful page fault, for some outcome of the search. */
  ghost predicate MemoryOutcome(tm: TimeManager, fdt: FdMap, vma: VmaMap, ts: string, proc: string, kv: map<string, string>,
                          before: seq<Report>, after: seq<Report>)
  {
    if Ret(kv) < 0 then after == before
    else exists fd :: SearchOutcome(vma, proc, GoAtoi(Get(kv, "addr")), fd)
                      && after == before + MemoryReports(tm, fdt, fd, ts, proc, kv)
  }

  /** handlers.go:121-140: `mmap` stores [ret, ret + len] under `fd`; otherwise the region found at address `ret` is removed. */
  ghost predicate AddressSpaceOutcome(vma: VmaMap, proc: string, operand: string, kv: map<string, string>, after: VmaMap)
  {
    if Ret(kv) < 0 then after == vma
    else if operand == "mmap" then
      after == PutRegion(vma, proc, GoAtoi(Get(kv, "fd")), Ret(kv), GoAtoi(Get(kv, "len")))
    else exists fd :: SearchOutcome(vma, proc, Ret(kv), fd) && after == RemoveRegion(vma, proc, fd)
  }

  /** The interpreter's state: both tables and the reports written so far. */
  datatype Snapshot = Snapshot(fdt: FdMap, vma: VmaMap, out: seq<Report>)

  /** What one handler may do to the state. */
  ghost predicate HandlerStep(tm: TimeManager, h: Handler, s: Snapshot, ts: string, proc: string, operand: string,
                        kv: map<string, string>, t: Snapshot)
  {
    match h
    case IOHandler => t == s.(out := s.out + IOReports(tm, s.fdt, ts, proc, operand, kv))
    case FdTableHandler => t == s.(fdt := FdTableEffect(s.fdt, proc, operand, kv))
    case UpdateFdHandler => t == s.(fdt := UpdateFdEffect(s.fdt, proc, kv))
    case MemoryHandler =>
      t.fdt == s.fdt && t.vma == s.vma && MemoryOutcome(tm, s.fdt, s.vma, ts, proc, kv, s.out, t.out)
    case AddressSpaceHandler =>
      t.fdt == s.fdt && t.out == s.out && AddressSpaceOutcome(s.vma, proc, operand, kv, t.vma)
  }

  /** What one line may do to the state: interpreter.go:143-173. */
  ghost predicate Step(tm: TimeManager, s: Snapshot, line: string, t: Snapshot)
  {
    match ParseLine(line)
    case None => t == s
    case Some(cl) =>
      if cl.event in Handlers then HandlerStep(tm, Handlers[cl.event], s, cl.ts, cl.proc, cl.event, KvOfText(cl.kvText), t)
      else t == s
  }

  // ---------------------------------------------------------------------
  // Properties of a step
  // ---------------------------------------------------------------------

  /** Lines that do not parse and operands without a handler leave everything as it was. */
  lemma UnhandledLineIgnored(tm: TimeManager, s: Snapshot, line: string, t: Snapshot)
    requires ParseLine(line).None? || ParseLine(line).value.event !in Handlers
    ensures Step(tm, s, line, t) <==> t == s
  {
  }

  /** Every handler does nothing when `ret` parses below zero. */
  lemma FailedCallIgnored(tm: TimeManager, h: Handler, s: Snapshot, ts: string, proc: string, operand: string,
                          kv: map<string, string>, t: Snapshot)
    requires Ret(kv) < 0
    ensures HandlerStep(tm, h, s, ts, proc, operand, kv, t) <==> t == s
  {
  }

  /** The I/O handler never changes the tables; it reports the bound file name, or "unknown (fd=<fd>)", and the `diff` duration. */
  lemma IOMeaning(tm: TimeManager, s: Snapshot, ts: string, proc: string, operand: string, kv: map<string, string>, t: Snapshot)
    requires HandlerStep(tm, IOHandler, s, ts, proc, operand, kv, t)
    ensures t.fdt == s.fdt && t.vma == s.vma
    ensures Ret(kv) < 0 ==> t.out == s.out
    ensures Ret(kv) >= 0 ==>
      var fd := GoAtoi(Get(kv, "fd"));
      && |t.out| == |s.out| + 1 && t.out[..|s.out|] == s.out
      && t.out[|s.out|].durationNs == GoAtoi(Get(kv, "diff"))
      && t.out[|s.out|].count == Get(kv, "count")
      && (Lookup(s.fdt, proc, fd) != "" ==> t.out[|s.out|].fname == Lookup(s.fdt, proc, fd))
      && (Lookup(s.fdt, proc, fd) == "" ==> t.out[|s.out|].fname == "unknown (fd=" + IntToDecimal(fd) + ")")
  {
    DurationIsDiff(tm, ts, kv);
  }

  /** A successful non-close fd-table syscall binds fd `ret` to `fname`; `close` leaves the table unchanged. */
  lemma FdTableMeaning(s: FdMap, proc: string, operand: string, kv: map<string, string>, p: string, f: int)
    ensures operand == "close" ==> FdTableEffect(s, proc, operand, kv) == s
    ensures Ret(kv) >= 0 && operand != "close" ==>
      Lookup(FdTableEffect(s, proc, operand, kv), proc, Ret(kv)) == Get(kv, "fname")
    ensures (p, f) != (proc, Ret(kv)) ==> Lookup(FdTableEffect(s, proc, operand, kv), p, f) == Lookup(s, p, f)
  {
    PutMeaning(s, proc, Ret(kv), Get(kv, "fname"), p, f);
  }

  /** dup/dup2/dup3 move the name of `oldfd` to `newfd` and unbind `oldfd`. */
  lemma UpdateFdMeaning(s: FdMap, proc: string, kv: map<string, string>)
    requires Ret(kv) >= 0
    ensures var oldFd, newFd := GoAtoi(Get(kv, "oldfd")), GoAtoi(Get(kv, "newfd"));
      Bound(s, proc, oldFd) && oldFd != newFd ==>
        && Lookup(UpdateFdEffect(s, proc, kv), proc, newFd) == Lookup(s, proc, oldFd)
        && !Bound(UpdateFdEffect(s, proc, kv), proc, oldFd)
  {
    ReplaceMeaning(s, proc, GoAtoi(Get(kv, "oldfd")), GoAtoi(Get(kv, "newfd")), proc, 0);
  }

  /** A page fault at an address no region of the process contains adds no report; neither handler touches the fd table. */
  lemma MemoryUnmappedSilent(tm: TimeManager, s: Snapshot, ts: string, proc: string, kv: map<string, string>, t: Snapshot)
    requires HandlerStep(tm, MemoryHandler, s, ts, proc, "page_fault_user", kv, t)
    requires !Mapped(s.vma, proc, GoAtoi(Get(kv, "addr")))
    ensures t == s
  {
    if Ret(kv) >= 0 {
      var fd :| SearchOutcome(s.vma, proc, GoAtoi(Get(kv, "addr")), fd)
                && t.out == s.out + MemoryReports(tm, s.fdt, fd, ts, proc, kv);
      assert fd == -2;
      assert t.out == s.out + [];
    }
  }

  /** A page fault inside a mapped region reports the file of the fd that owns some region holding the address. */
  lemma MemoryMappedReports(tm: TimeManager, s: Snapshot, ts: string, proc: string, kv: map<string, string>, t: Snapshot)
    requires HandlerStep(tm, MemoryHandler, s, ts, proc, "page_fault_user", kv, t)
    requires Ret(kv) >= 0 && Mapped(s.vma, proc, GoAtoi(Get(kv, "addr")))
    requires !(proc in s.vma && -2 in s.vma[proc])
    ensures |t.out| == |s.out| + 1 && t.out[..|s.out|] == s.out
    ensures exists fd :: fd in s.vma[proc] && Hit(s.vma[proc][fd], GoAtoi(Get(kv, "addr")))
                         && t.out[|s.out|] == MemoryReport(Start(tm, ts), GoAtoi(Get(kv, "diff")), proc, FdName(s.fdt, proc, fd))
  {
    DurationIsDiff(tm, ts, kv);
    var fd :| SearchOutcome(s.vma, proc, GoAtoi(Get(kv, "addr")), fd)
              && t.out == s.out + MemoryReports(tm, s.fdt, fd, ts, proc, kv);
    assert fd != -2;
    assert t.out[|s.out|] == MemoryReport(Start(tm, ts), GoAtoi(Get(kv, "diff")), proc, FdName(s.fdt, proc, fd));
  }

  /** `mmap` stores the region [ret, ret + len] under `fd`; `munmap` unbinds an fd whose region holds address `ret`. */
  lemma AddressSpaceMeaning(vma: VmaMap, proc: string, operand: string, kv: map<string, string>, after: VmaMap)
    requires AddressSpaceOutcome(vma, proc, operand, kv, after)
    requires Ret(kv) >= 0
    ensures operand == "mmap" ==>
      var fd := GoAtoi(Get(kv, "fd"));
      proc in after && fd in after[proc] && after[proc][fd] == Region(Ret(kv), Ret(kv) + GoAtoi(Get(kv, "len")))
    ensures operand != "mmap" && Mapped(vma, proc, Ret(kv)) ==>
      exists fd :: fd in vma[proc] && Hit(vma[proc][fd], Ret(kv)) && proc in after && after[proc] == vma[proc] - {fd}
  {
    if operand == "mmap" {
      PutRegionMeaning(vma, proc, GoAtoi(Get(kv, "fd")), Ret(kv), GoAtoi(Get(kv, "len")), proc, 0);
    } else if Mapped(vma, proc, Ret(kv)) {
      var fd :| SearchOutcome(vma, proc, Ret(kv), fd) && after == RemoveRegion(vma, proc, fd);
      assert fd in vma[proc] && Hit(vma[proc][fd], Ret(kv)) && after[proc] == vma[proc] - {fd};
    }
  }

  /** `toDatetime` (interpreter.go:88-98), written out as the interpreter does it. */
  function ToDatetime(referenceWall: int, referenceMono: int, t: int): Instant
  {
    var deltaNs := t - referenceMono;
    var eventWallNs := referenceWall + deltaNs;
    Unix(GoDiv(eventWallNs, Nano), GoRem(eventWallNs, Nano))
  }

  /** `toDatetime` is `TimeManager.ToTime` on the same references, so it denotes referenceWall + (t - referenceMono) ns. */
  lemma ToDatetimeExact(referenceWall: int, referenceMono: int, t: int)
    ensures ToDatetime(referenceWall, referenceMono, t) == ToTime(TimeManager(referenceWall, referenceMono), t)
    ensures Normal(ToDatetime(referenceWall, referenceMono, t))
    ensures TotalNs(ToDatetime(referenceWall, referenceMono, t)) == referenceWall + (t - referenceMono)
  {
    ToTimeExact(TimeManager(referenceWall, referenceMono), t);
  }

  // ---------------------------------------------------------------------
  // Scanning a chunk file (bufio.Scanner with ScanLines)
  // ---------------------------------------------------------------------

  /** bufio.MaxScanTokenSize: a line, with its newline or the end-of-file read behind it, must fit in 64 KiB. */
  const MaxScanTokenSize: nat := 64 * 1024

  /** The length of the first line: the position of the first newline, or the whole text. */
  function LineLength(text: string): (n: nat)
    ensures n <= |text| && '\n' !in text[..n]
    ensures n < |text| ==> text[n] == '\n'
    decreases |text|
  {
    if |text| == 0 || text[0] == '\n' then 0
    else
      var m := LineLength(text[1..]);
      assert text[..1 + m] == [text[0]] + text[1..][..m];
      1 + m
  }

  /** ScanLines drops one carriage return at the end of a line. */
  function DropCR(line: string): (r: string)
    ensures r <= line && |line| - 1 <= |r|
    ensures |line| > 0 && line[|line| - 1] == '\r' <==> |r| < |line|
  {
    if |line| > 0 && line[|line| - 1] == '\r' then line[..|line| - 1] else line
  }

  /** What `for scanner.Scan()` yields over a file: its lines in order, and whether it stopped with ErrTooLong. */
  datatype Scanned = Scanned(lines: seq<string>, tooLong: bool)

  /**
   * The scanner over the whole text: each line up to its newline (or the end)
   * with one trailing carriage return dropped; a line of 64 KiB or more stops
   * the scan with ErrTooLong, before that line; an empty remainder ends it.
   */
  function ScanLines(text: string): (r: Scanned)
    ensures forall i :: 0 <= i < |r.lines| ==> '\n' !in r.lines[i] && |r.lines[i]| < MaxScanTokenSize
    decreases |text|
  {
    if |text| == 0 then Scanned([], false)
    else
      var n := LineLength(text);
      if n >= MaxScanTokenSize then Scanned([], true)
      else
        var line := DropCR(text[..n]);
        assert line <= text[..n];
        if n == |text| then Scanned([line], false)
        else
          var rest := ScanLines(text[n + 1..]);
          Scanned([line] + rest.lines, rest.tooLong)
  }

  /** Each line followed by a newline. */
  function JoinLines(lines: seq<string>): string
  {
    if |lines| == 0 then "" else lines[0] + "\n" + JoinLines(lines[1..])
  }

  /** A character absent from a text is absent from its two sides at any cut. */
  lemma NotInSlices(s: string, c: char, k: nat)
    requires k <= |s| && c !in s
    ensures c !in s[..k] && c !in s[k..]
  {
    assert s == s[..k] + s[k..];
  }

  /** The first line ends at the first newline. */
  lemma {:induction false} LineLengthAt(text: string, k: nat)
    requires k < |text| && text[k] == '\n' && '\n' !in text[..k]
    ensures LineLength(text) == k
    decreases k
  {
    if k > 0 {
      assert text[0] == text[..k][0];
      assert text[1..][..k - 1] == text[..k][1..];
      LineLengthAt(text[1..], k - 1);
    }
  }

  /**
   * On text without carriage returns, a scan that does not stop early loses
   * nothing: its lines, each followed by a newline, give the text back, with
   * one more newline when the text does not end with one.
   */
  lemma {:induction false} ScanRejoin(text: string)
    ensures '\r' !in text && !ScanLines(text).tooLong ==>
      JoinLines(ScanLines(text).lines) == if |text| == 0 || text[|text| - 1] == '\n' then text else text + "\n"
    decreases |text|
  {
    if '\r' !in text && |text| > 0 && !ScanLines(text).tooLong {
      var n := LineLength(text);
      NotInSlices(text, '\r', n);
      if n == |text| {
        assert text[..n] == text;
      } else {
        var rest := text[n + 1..];
        NotInSlices(text, '\r', n + 1);
        ScanRejoin(rest);
        RejoinStep(text, n);
      }
    }
  }

  /** One line and its newline off the front of the text. */
  lemma RejoinStep(text: string, n: nat)
    requires n < |text| && text[n] == '\n' && |text[..n]| == n
    ensures text == text[..n] + "\n" + text[n + 1..]
    ensures |text[n + 1..]| > 0 ==> text[n + 1..][|text[n + 1..]| - 1] == text[|text| - 1]
  {
  }

  /** Position p starts a line of the text. */
  predicate LineStart(text: string, p: nat)
  {
    p <= |text| && (p == 0 || text[p - 1] == '\n')
  }

  /** A line of 64 KiB or more starts at p. */
  predicate LongLineAt(text: string, p: nat)
  {
    LineStart(text, p) && p + MaxScanTokenSize <= |text| && '\n' !in text[p..p + MaxScanTokenSize]
  }

  /** The scan stops with ErrTooLong exactly when some line of the text is 64 KiB or longer. */
  lemma {:induction false} ScanTooLongMeaning(text: string)
    ensures ScanLines(text).tooLong <==> exists p: nat :: LongLineAt(text, p)
    decreases |text|
  {
    if |text| > 0 {
      var n := LineLength(text);
      if n >= MaxScanTokenSize {
        assert text[0..MaxScanTokenSize] == text[..n][..MaxScanTokenSize];
        assert LongLineAt(text, 0);
      } else {
        FirstLineShort(text);
        if n < |text| {
          var rest := text[n + 1..];
          ScanTooLongMeaning(rest);
          if exists p: nat :: LongLineAt(text, p) {
            var p: nat :| LongLineAt(text, p);
            LongLineShift(text, n, p - n - 1);
          }
          if exists q: nat :: LongLineAt(rest, q) {
            var q: nat :| LongLineAt(rest, q);
            LongLineShift(text, n, q);
          }
        }
      }
    }
  }

  /** No long line starts within a first line shorter than 64 KiB. */
  lemma FirstLineShort(text: string)
    requires LineLength(text) < MaxScanTokenSize
    ensures forall p: nat :: p <= LineLength(text) ==> !LongLineAt(text, p)
  {
    var n := LineLength(text);
    forall p: nat | 0 < p <= n ensures !LineStart(text, p) {
      assert text[p - 1] == text[..n][p - 1];
    }
    if n < |text| && MaxScanTokenSize <= |text| {
      assert text[0..MaxScanTokenSize][n] == '\n';
    }
  }

  /** Lines after the first newline start at the same places in the rest of the text. */
  lemma LongLineShift(text: string, n: nat, q: int)
    requires n < |text| && text[n] == '\n' && q >= 0
    ensures LongLineAt(text[n + 1..], q) <==> LongLineAt(text, q + n + 1)
  {
    var rest := text[n + 1..];
    if q + MaxScanTokenSize <= |rest| {
      assert rest[q..q + MaxScanTokenSize] == text[q + n + 1..q + n + 1 + MaxScanTokenSize];
    }
  }

  /** A line ending in "\r\n" is handled without its carriage return. */
  lemma ScanDropsCR(line: string, rest: string)
    requires '\n' !in line && |line| + 1 < MaxScanTokenSize
    ensures ScanLines(line + "\r\n" + rest) == Scanned([line] + ScanLines(rest).lines, ScanLines(rest).tooLong)
  {
    var text := line + "\r\n" + rest;
    assert text[..|line| + 1] == line + "\r";
    LineLengthAt(text, |line| + 1);
    assert text[|line| + 2..] == rest;
  }

  // ---------------------------------------------------------------------
  // The interpreter object
  // ---------------------------------------------------------------------

  /** The interpreter of interpreter.go:17-30 and handlers.go, its output file replaced by the sequence of reports. */
  class Interp {
    const tm: TimeManager
    const fdt: FdTable
    const vma: AddressSpace
    var out: seq<Report>

    function State(): Snapshot
      reads this, fdt, vma
    {
      Snapshot(fdt.kv, vma.blocks, out)
    }

    /** `initVars` with the reference times already read: empty tables, nothing reported. */
    constructor (referenceWall: int, referenceMono: int)
      ensures tm == TimeManager(referenceWall, referenceMono)
      ensures fresh(fdt) && fresh(vma)
      ensures State() == Snapshot(map[], map[], [])
    {
      tm := TimeManager(referenceWall, referenceMono);
      fdt := new FdTable();
      vma := new AddressSpace();
      out := [];
    }

    method HandleIO(ts: string, proc: string, operand: string, kv: map<string, string>)
      modifies this
      ensures out == old(out) + IOReports(tm, fdt.kv, ts, proc, operand, kv)
    {
      var ret := GoAtoi(Get(kv, "ret"));
      if ret < 0 {
        return;
      }
      var fd := GoAtoi(Get(kv, "fd"));
      var fname := fdt.Search(proc, fd);
      if |fname| == 0 {
        fname := "unknown (fd=" + IntToDecimal(fd) + ")";
      }
      var tsInt := GoAtoi(ts);
      var timeDuration := GoAtoi(Get(kv, "diff"));
      var startDate := ToTime(tm, tsInt);
      var endDate := ToTime(tm, tsInt + timeDuration);
      out := out + [IOReport(startDate, Sub(endDate, startDate), proc, operand, Get(kv, "count"), fname)];
    }

    method HandleFdTable(ts: string, proc: string, operand: string, kv: map<string, string>)
      modifies fdt
      ensures fdt.kv == FdTableEffect(old(fdt.kv), proc, operand, kv)
    {
      var ret := GoAtoi(Get(kv, "ret"));
      if ret < 0 {
        return;
      }
      if operand == "close" {
        var fd := GoAtoi(Get(kv, "fd"));
        fdt.Remove(proc, fd);
      } else {
        fdt.Put(proc, ret, Get(kv, "fname"));
      }
    }

    method HandleUpdateFd(ts: string, proc: string, operand: string, kv: map<string, string>)
      modifies fdt
      ensures fdt.kv == UpdateFdEffect(old(fdt.kv), proc, kv)
    {
      var ret := GoAtoi(Get(kv, "ret"));
      if ret < 0 {
        return;
      }
      var newFd := GoAtoi(Get(kv, "newfd"));
      var oldFd := GoAtoi(Get(kv, "oldfd"));
      fdt.Replace(proc, oldFd, newFd);
    }

    method HandleMemory(ts: string, proc: string, operand: string, kv: map<string, string>)
      modifies this
      ensures MemoryOutcome(tm, fdt.kv, vma.blocks, ts, proc, kv, old(out), out)
    {
      var ret := GoAtoi(Get(kv, "ret"));
      if ret < 0 {
        return;
      }
      var address := GoAtoi(Get(kv, "addr"));
      var fd := vma.Search(proc, address);
      assert SearchOutcome(vma.blocks, proc, address, fd);
      if fd == -2 {
        assert out == old(out) + MemoryReports(tm, fdt.kv, fd, ts, proc, kv);
        return;
      }
      var fname := fdt.Search(proc, fd);
      if |fname| == 0 {
        fname := "unknown (fd=" + IntToDecimal(fd) + ")";
      }
      var tsInt := GoAtoi(ts);
      var timeDuration := GoAtoi(Get(kv, "diff"));
      var startDate := ToTime(tm, tsInt);
      var endDate := ToTime(tm, tsInt + timeDuration);
      out := out + [MemoryReport(startDate, Sub(endDate, startDate), proc, fname)];
      assert out == old(out) + MemoryReports(tm, fdt.kv, fd, ts, proc, kv);
    }

    method HandleAddressSpace(ts: string, proc: string, operand: string, kv: map<string, string>)
      modifies vma
      ensures AddressSpaceOutcome(old(vma.blocks), proc, operand, kv, vma.blocks)
    {
      var ret := GoAtoi(Get(kv, "ret"));
      if ret < 0 {
        return;
      }
      var address := GoAtoi(Get(kv, "ret"));
      var boundary := GoAtoi(Get(kv, "len"));
      if operand == "mmap" {
        var fd := GoAtoi(Get(kv, "fd"));
        vma.Put(proc, fd, address, boundary);
      } else {
        var fd := vma.Search(proc, address);
        assert SearchOutcome(vma.blocks, proc, address, fd);
        vma.Remove(proc, fd);
      }
    }

    /** One iteration of the scan loop of `process`. */
    method ProcessLine(line: string)
      modifies this, fdt, vma
      ensures Step(tm, old(State()), line, State())
    {
      var parts := Split(line, LineSep);
      if |parts| < 4 {
        return;
      }
      var ts, proc, event, kvString := parts[0], parts[1], parts[2], parts[3];
      var kv := BuildKv(kvString);
      if event in Handlers {
        match Handlers[event]
        case FdTableHandler => HandleFdTable(ts, proc, event, kv);
        case UpdateFdHandler => HandleUpdateFd(ts, proc, event, kv);
        case IOHandler => HandleIO(ts, proc, event, kv);
        case AddressSpaceHandler => HandleAddressSpace(ts, proc, event, kv);
        case MemoryHandler => HandleMemory(ts, proc, event, kv);
      }
    }

    /**
     * `process` of one file's text: the scanner's lines are handled in order,
     * each one allowed step, and the call fails ("scanner failed") exactly
     * when the scanner stopped on a line that does not fit its buffer; the
     * lines before that one have been handled.
     */
    method ProcessFile(text: string) returns (ok: bool, ghost states: seq<Snapshot>)
      modifies this, fdt, vma
      ensures ok <==> !ScanLines(text).tooLong
      ensures |states| == |ScanLines(text).lines| + 1
      ensures states[0] == old(State()) && states[|states| - 1] == State()
      ensures forall i :: 0 <= i < |ScanLines(text).lines| ==> Step(tm, states[i], ScanLines(text).lines[i], states[i + 1])
    {
      var scanned := ScanLines(text);
      states := Process(scanned.lines);
      ok := !scanned.tooLong;
    }

    /** The loop of `process` over the lines the scanner yields: every line is one step, in order. */
    method Process(lines: seq<string>) returns (ghost states: seq<Snapshot>)
      modifies this, fdt, vma
      ensures |states| == |lines| + 1
      ensures states[0] == old(State()) && states[|lines|] == State()
      ensures forall i :: 0 <= i < |lines| ==> Step(tm, states[i], lines[i], states[i + 1])
    {
      states := [State()];
      var i := 0;
      while i < |lines|
        invariant 0 <= i <= |lines|
        invariant |states| == i + 1
        invariant states[0] == old(State()) && states[i] == State()
        invariant forall j :: 0 <= j < i ==> Step(tm, states[j], lines[j], states[j + 1])
      {
        ProcessLine(lines[i]);
        states := states + [State()];
        i := i + 1;
      }
    }
  }
}
