/**
 * The query logic of the HTTP API (src/api/routes.py): the pagination of the
 * three per-file aggregations and the row filters they and `list_io_events`
 * apply. The database is a sequence of io_logs rows; SQL `IS` / `IS NOT`
 * are null-safe comparisons, so a missing column value is `None`.
 */
module Routes {
  import opened Wrappers
  import opened Strings

  const PageSize: nat := 20

  // ---------------------------------------------------------------------
  // Request arguments
  // ---------------------------------------------------------------------

  /** `request.args.get("page", default=1, type=int)`: the default when the argument is absent or int() rejects it. */
  function PageArg(raw: Option<string>): (page: int)
    ensures raw.None? ==> page == 1
    ensures raw.Some? && PyParseInt(raw.value).Some? ==> page == PyParseInt(raw.value).value
    ensures raw.Some? && PyParseInt(raw.value).None? ==> page == 1
  {
    match raw
    case None => 1
    case Some(s) => match PyParseInt(s) case Some(n) => n case None => 1
  }

  /** ASCII lower-casing, the part of `str.lower` the `desc` argument can be compared with. */
  function AsciiLower(s: string): (r: string)
    ensures |r| == |s|
    ensures forall i :: 0 <= i < |s| ==> r[i] == if 'A' <= s[i] <= 'Z' then (s[i] as int + 32) as char else s[i]
  {
    if |s| == 0 then []
    else [if 'A' <= s[0] <= 'Z' then (s[0] as int + 32) as char else s[0]] + AsciiLower(s[1..])
  }

  datatype Ordering = Ascending | Descending

  /** The sort direction: descending exactly when `desc` lower-cases to "true"; absent means "false". */
  function OrderingArg(raw: Option<string>): (o: Ordering)
    ensures raw.None? ==> o == Ascending
  {
    var v := if raw.Some? then raw.value else "false";
    if AsciiLower(v) == "true" then Descending else Ascending
  }

  /**
   * `desc` orders descending exactly when it is "true" in any mix of ASCII
   * cases; an absent `desc` orders ascending.
   */
  lemma OrderingArgMeaning(raw: string)
    ensures OrderingArg(Some(raw)) == Descending <==>
      |raw| == 4 && raw[0] in "tT" && raw[1] in "rR" && raw[2] in "uU" && raw[3] in "eE"
    ensures OrderingArg(None) == Ascending
  {
    var l := AsciiLower(raw);
    if |raw| == 4 {
      LowerChar(raw[0], 't', 'T');
      LowerChar(raw[1], 'r', 'R');
      LowerChar(raw[2], 'u', 'U');
      LowerChar(raw[3], 'e', 'E');
      FourChars(l, 't', 'r', 'u', 'e');
    }
    LowerFalse();
  }

  lemma LowerFalse()
    ensures AsciiLower("false") != "true"
  {
    assert AsciiLower("false")[0] == 'f';
  }

  lemma FourChars(l: string, a: char, b: char, c: char, d: char)
    requires |l| == 4
    ensures l == [a, b, c, d] <==> l[0] == a && l[1] == b && l[2] == c && l[3] == d
  {
  }

  /** A character lower-cases to the lower-case letter `lo` exactly when it is `lo` or its capital `up`. */
  lemma LowerChar(c: char, lo: char, up: char)
    requires 'a' <= lo <= 'z' && up as int == lo as int - 32
    ensures (if 'A' <= c <= 'Z' then (c as int + 32) as char else c) == lo <==> c in [lo, up]
  {
  }

  /** `page` reads back the decimal it was given, and is 1 when absent. */
  lemma PageArgMeaning(n: nat)
    ensures PageArg(Some(NatToDecimal(n))) == n
    ensures PageArg(None) == 1
  {
    PyParseDecimal(n);
  }

  // ---------------------------------------------------------------------
  // Pagination
  // ---------------------------------------------------------------------

  /** The pagination fields of a response. */
  datatype Pagination = Pagination(offset: int, totalPages: nat, nextPage: Option<int>, prevPage: Option<int>)

  /** Python `//` on the non-negative numerator used here (floor division). */
  function Paginate(page: int, total: nat): Pagination
  {
    var totalPages := (total + PageSize - 1) / PageSize;
    Pagination(
      (page - 1) * PageSize,
      totalPages,
      if page < totalPages then Some(page + 1) else None,
      if page > 1 then Some(page - 1) else None)
  }

  /** `total_pages` is the ceiling of total / 20: enough pages for every row, and no empty last page. */
  lemma TotalPagesCeiling(page: int, total: nat)
    ensures var n := Paginate(page, total).totalPages;
      && n * PageSize >= total
      && (total > 0 ==> (n - 1) * PageSize < total)
      && (total == 0 <==> n == 0)
  {
  }

  /** There is a next page exactly when the page is before the last, and a previous page exactly when it is after the first. */
  lemma NextPrevMeaning(page: int, total: nat)
    ensures var r := Paginate(page, total);
      && (r.nextPage.Some? <==> page < r.totalPages)
      && (r.nextPage.Some? ==> r.nextPage.value == page + 1)
      && (r.prevPage.Some? <==> page > 1)
      && (r.prevPage.Some? ==> r.prevPage.value == page - 1)
  {
  }

  /** Pages before the first are not rejected: their offset is negative, and they still get a next page when any exists. */
  lemma UnvalidatedPage(page: int, total: nat)
    requires page <= 0
    ensures Paginate(page, total).offset < 0
    ensures Paginate(page, total).prevPage == None
    ensures total > 0 ==> Paginate(page, total).nextPage == Some(page + 1)
  {
  }

  /** Row k of the ordered result (counting from 0) is on page k / 20 + 1, which lies between 1 and total_pages; no other page holds it. */
  lemma RowOnOnePage(total: nat, k: nat, page: int)
    requires k < total
    ensures 1 <= k / PageSize + 1 <= Paginate(page, total).totalPages
    ensures var off := Paginate(page, total).offset;
      off <= k < off + PageSize <==> page == k / PageSize + 1
  {
  }

  /** The window LIMIT 20 OFFSET `offset` takes from the ordered groups, for a non-negative offset. */
  function Window<T>(ordered: seq<T>, offset: nat): (w: seq<T>)
    ensures |w| <= PageSize
    ensures offset + PageSize <= |ordered| ==> w == ordered[offset..offset + PageSize]
  {
    var lo := if offset <= |ordered| then offset else |ordered|;
    var hi := if offset + PageSize <= |ordered| then offset + PageSize else |ordered|;
    ordered[lo..hi]
  }

  /** The windows of pages first..first+count-1, one after the other. */
  function Pages<T>(ordered: seq<T>, first: nat, count: nat): seq<T>
    requires first >= 1
    decreases count
  {
    if count == 0 then [] else Window(ordered, (first - 1) * PageSize) + Pages(ordered, first + 1, count - 1)
  }

  /** Reading pages 1 to total_pages in turn returns every ordered row exactly once, in order. */
  lemma PagesCover<T>(ordered: seq<T>)
    ensures Pages(ordered, 1, Paginate(1, |ordered|).totalPages) == ordered
  {
    PagesFrom(ordered, 0, Paginate(1, |ordered|).totalPages);
  }

  lemma {:induction false} PagesFrom<T>(ordered: seq<T>, done: nat, count: nat)
    requires done * PageSize <= |ordered|
    requires (done + count) * PageSize >= |ordered| && (count == 0 || (done + count - 1) * PageSize < |ordered|)
    ensures Pages(ordered, done + 1, count) == ordered[done * PageSize..]
    decreases count
  {
    if count == 0 {
      assert ordered[done * PageSize..] == [];
    } else {
      var off := done * PageSize;
      PageArith(done, count);
      if off + PageSize <= |ordered| {
        PagesFrom(ordered, done + 1, count - 1);
        assert ordered[off..] == ordered[off..off + PageSize] + ordered[off + PageSize..];
      } else {
        assert count == 1;
        assert Pages(ordered, done + 2, 0) == [];
        assert Window(ordered, off) == ordered[off..];
      }
    }
  }

  lemma PageArith(done: nat, count: nat)
    requires count > 0
    ensures (done + 1) * PageSize == done * PageSize + PageSize
    ensures (done + count) * PageSize == (done + 1) * PageSize + (count - 1) * PageSize
    ensures (done + count - 1) * PageSize == done * PageSize + (count - 1) * PageSize
    ensures count > 1 ==> (count - 1) * PageSize >= PageSize
  {
  }

  // ---------------------------------------------------------------------
  // Row filters
  // ---------------------------------------------------------------------

  /** The io_logs columns the queries look at. */
  datatype IoRow = IoRow(proc: Option<string>, eventName: Option<string>, fname: Option<string>, countbytes: int, latency: int)

  /**
   * The WHERE clause of the three file aggregations: `proc IS :proc` and
   * `event_name IS NOT 'close'`. An absent `proc` argument compares with NULL.
   */
  predicate FileRow(r: IoRow, proc: Option<string>)
  {
    r.proc == proc && r.eventName != Some("close")
  }

  /** The rows the aggregations group, in table order. */
  function FileRows(rows: seq<IoRow>, proc: Option<string>): (sel: seq<IoRow>)
    ensures |sel| <= |rows|
    ensures forall r :: r in sel <==> r in rows && FileRow(r, proc)
  {
    if |rows| == 0 then []
    else (if FileRow(rows[0], proc) then [rows[0]] else []) + FileRows(rows[1..], proc)
  }

  /** The groups of GROUP BY fname; their number is `total`. */
  function FileGroups(rows: seq<IoRow>, proc: Option<string>): set<Option<string>>
  {
    set r | r in FileRows(rows, proc) :: r.fname
  }

  /** `count()` of one group. */
  function GroupCount(rows: seq<IoRow>, proc: Option<string>, fname: Option<string>): nat
  {
    if |rows| == 0 then 0
    else (if FileRow(rows[0], proc) && rows[0].fname == fname then 1 else 0) + GroupCount(rows[1..], proc, fname)
  }

  /** `sum(countbytes)` of one group. */
  function GroupBytes(rows: seq<IoRow>, proc: Option<string>, fname: Option<string>): int
  {
    if |rows| == 0 then 0
    else (if FileRow(rows[0], proc) && rows[0].fname == fname then rows[0].countbytes else 0) + GroupBytes(rows[1..], proc, fname)
  }

  /**
   * A file name is a group exactly when some selected row has it, and then its
   * count is positive; close events and rows of other procs never contribute,
   * and a group never counts more rows than the table has.
   */
  lemma {:induction false} GroupMeaning(rows: seq<IoRow>, proc: Option<string>, fname: Option<string>)
    ensures fname in FileGroups(rows, proc) <==> GroupCount(rows, proc, fname) > 0
    ensures GroupCount(rows, proc, fname) <= |rows|
    decreases |rows|
  {
    if |rows| > 0 {
      GroupMeaning(rows[1..], proc, fname);
      if fname in FileGroups(rows, proc) {
        var r :| r in FileRows(rows, proc) && r.fname == fname;
        if r != rows[0] {
          assert r in rows[1..];
          assert r in FileRows(rows[1..], proc);
        }
      }
      if GroupCount(rows[1..], proc, fname) > 0 {
        var r :| r in FileRows(rows[1..], proc) && r.fname == fname;
        assert r in FileRows(rows, proc);
      }
      if FileRow(rows[0], proc) && rows[0].fname == fname {
        assert rows[0] in FileRows(rows, proc);
      }
    }
  }

  /** The rows of one file name, in order. */
  function Named(sel: seq<IoRow>, fname: Option<string>): seq<IoRow>
  {
    if |sel| == 0 then []
    else (if sel[0].fname == fname then [sel[0]] else []) + Named(sel[1..], fname)
  }

  /** The countbytes of the rows, added up. */
  function SumBytes(rs: seq<IoRow>): int
  {
    if |rs| == 0 then 0 else rs[0].countbytes + SumBytes(rs[1..])
  }

  /**
   * The aggregate of one group is taken over exactly the selected rows with
   * that file name: `count()` is their number and `sum(countbytes)` their total.
   */
  lemma {:induction false} GroupSums(rows: seq<IoRow>, proc: Option<string>, fname: Option<string>)
    ensures GroupCount(rows, proc, fname) == |Named(FileRows(rows, proc), fname)|
    ensures GroupBytes(rows, proc, fname) == SumBytes(Named(FileRows(rows, proc), fname))
    decreases |rows|
  {
    if |rows| > 0 {
      GroupSums(rows[1..], proc, fname);
      var tail := FileRows(rows[1..], proc);
      if FileRow(rows[0], proc) {
        assert FileRows(rows, proc) == [rows[0]] + tail;
        assert ([rows[0]] + tail)[1..] == tail;
        if rows[0].fname == fname {
          assert Named([rows[0]] + tail, fname) == [rows[0]] + Named(tail, fname);
          assert ([rows[0]] + Named(tail, fname))[1..] == Named(tail, fname);
        } else {
          assert Named([rows[0]] + tail, fname) == Named(tail, fname);
        }
      } else {
        assert FileRows(rows, proc) == tail;
      }
    }
  }

  /** Without a `proc` argument the aggregations keep only rows whose proc is NULL, not every row. */
  lemma MissingProcSelectsNull(rows: seq<IoRow>, r: IoRow)
    ensures r in FileRows(rows, None) <==> r in rows && r.proc.None? && r.eventName != Some("close")
  {
  }

  /** The WHERE clauses of `list_io_events`: proc only when it is a non-empty string, fname only when `hunk` is "true". */
  predicate EventRow(r: IoRow, proc: Option<string>, hunk: Option<string>)
  {
    && (proc.Some? && |proc.value| > 0 ==> r.proc == proc)
    && (hunk == Some("true") ==> r.fname != Some("unknown"))
  }

  function EventRows(rows: seq<IoRow>, proc: Option<string>, hunk: Option<string>): (sel: seq<IoRow>)
    ensures |sel| <= |rows|
    ensures forall r :: r in sel <==> r in rows && EventRow(r, proc, hunk)
  {
    if |rows| == 0 then []
    else (if EventRow(rows[0], proc, hunk) then [rows[0]] else []) + EventRows(rows[1..], proc, hunk)
  }

  /**
   * An empty or absent `proc` and any `hunk` other than "true" leave the
   * table unfiltered; `hunk == "true"` keeps rows whose fname is NULL.
   */
  lemma {:induction false} EventRowsUnfiltered(rows: seq<IoRow>, proc: Option<string>, hunk: Option<string>)
    requires proc == None || proc == Some("")
    requires hunk != Some("true")
    ensures EventRows(rows, proc, hunk) == rows
    decreases |rows|
  {
    if |rows| > 0 {
      EventRowsUnfiltered(rows[1..], proc, hunk);
      assert [rows[0]] + rows[1..] == rows;
    }
  }

  lemma HiddenUnknownKeepsNull(rows: seq<IoRow>, r: IoRow)
    requires r in rows && r.fname.None?
    ensures r in EventRows(rows, None, Some("true"))
  {
  }
}
