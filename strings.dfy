/**
 * Text primitives shared by the Go and Python components: the character
 * classes their regular expressions and trimming functions use, maximal
 * runs, splitting and joining, decimal conversion, and UTF-8 encoding.
 * Strings are sequences of Unicode scalar values.
 */
module Strings {
  import opened Wrappers

  /** One octet, as written to a file or fed to a hash. */
  type byte = b: int | 0 <= b < 256

  /** The character classes the source's patterns and trimming functions use. */
  datatype CharClass =
    | PySpace       // Python str.isspace(), also Python re's \s on str patterns
    | GoSpace       // Go unicode.IsSpace, used by strings.TrimSpace
    | GoRegexSpace  // Go regexp's \s, which is ASCII [\t\n\f\r ]
    | Blank         // the single space that strings.Trim(x, " ") removes
    | Digit         // [0-9]
    | WordChar      // [a-zA-Z0-9_]
    | NotBrace      // [^}]

  predicate IsAsciiDigit(c: char) { '0' <= c <= '9' }

  /** Characters with Unicode White_Space that both Go and Python treat as space. */
  predicate IsUnicodeSpace(c: char)
  {
    || c == '\t' || c == '\n' || c == '\U{B}' || c == '\U{C}' || c == '\r' || c == ' '
    || c == '\U{85}' || c == '\U{A0}' || c == '\U{1680}'
    || ('\U{2000}' <= c <= '\U{200A}')
    || c == '\U{2028}' || c == '\U{2029}' || c == '\U{202F}' || c == '\U{205F}' || c == '\U{3000}'
  }

  predicate InClass(c: char, cls: CharClass)
  {
    match cls
    case PySpace => IsUnicodeSpace(c) || ('\U{1C}' <= c <= '\U{1F}')
    case GoSpace => IsUnicodeSpace(c)
    case GoRegexSpace => c == '\t' || c == '\n' || c == '\U{C}' || c == '\r' || c == ' '
    case Blank => c == ' '
    case Digit => IsAsciiDigit(c)
    case WordChar => IsAsciiDigit(c) || ('a' <= c <= 'z') || ('A' <= c <= 'Z') || c == '_'
    case NotBrace => c != '}'
  }

  predicate AllIn(s: string, cls: CharClass)
  {
    forall i :: 0 <= i < |s| ==> InClass(s[i], cls)
  }

  predicate NoneIn(s: string, cls: CharClass)
  {
    forall i :: 0 <= i < |s| ==> !InClass(s[i], cls)
  }

  /** Length of the longest prefix of `s` whose characters are all in `cls`. */
  function Span(s: string, cls: CharClass): (n: nat)
    ensures n <= |s|
    ensures AllIn(s[..n], cls)
    ensures n < |s| ==> !InClass(s[n], cls)
    decreases |s|
  {
    if |s| > 0 && InClass(s[0], cls) then
      var k := Span(s[1..], cls);
      assert s[..k + 1] == [s[0]] + s[1..][..k];
      1 + k
    else 0
  }

  /** Length of the longest prefix of `s` that has no character in `cls`. */
  function SpanNot(s: string, cls: CharClass): (n: nat)
    ensures n <= |s|
    ensures NoneIn(s[..n], cls)
    ensures n < |s| ==> InClass(s[n], cls)
    decreases |s|
  {
    if |s| > 0 && !InClass(s[0], cls) then
      var k := SpanNot(s[1..], cls);
      assert s[..k + 1] == [s[0]] + s[1..][..k];
      1 + k
    else 0
  }

  /** The maximal run of a class in front of a string is exactly that run. */
  lemma {:induction false} SpanOfConcat(a: string, b: string, cls: CharClass)
    requires AllIn(a, cls)
    requires b == [] || !InClass(b[0], cls)
    ensures Span(a + b, cls) == |a|
    decreases |a|
  {
    if |a| == 0 {
      assert a + b == b;
    } else {
      assert (a + b)[1..] == a[1..] + b;
      SpanOfConcat(a[1..], b, cls);
    }
  }

  /** The maximal run outside a class in front of a string is exactly that run. */
  lemma {:induction false} SpanNotOfConcat(a: string, b: string, cls: CharClass)
    requires NoneIn(a, cls)
    requires b == [] || InClass(b[0], cls)
    ensures SpanNot(a + b, cls) == |a|
    decreases |a|
  {
    if |a| == 0 {
      assert a + b == b;
    } else {
      assert (a + b)[1..] == a[1..] + b;
      SpanNotOfConcat(a[1..], b, cls);
    }
  }

  /** Removes the leading characters of `cls`. */
  function TrimLeft(s: string, cls: CharClass): (r: string)
    ensures r == s[Span(s, cls)..]
  {
    s[Span(s, cls)..]
  }

  /** Removes the trailing characters of `cls`. */
  function TrimRight(s: string, cls: CharClass): (r: string)
    ensures |r| <= |s| && r == s[..|r|]
    ensures AllIn(s[|r|..], cls)
    ensures |r| > 0 ==> !InClass(r[|r| - 1], cls)
    decreases |s|
  {
    if |s| > 0 && InClass(s[|s| - 1], cls) then
      var r := TrimRight(s[..|s| - 1], cls);
      assert s[|r|..] == s[..|s| - 1][|r|..] + [s[|s| - 1]];
      r
    else s
  }

  /** Both ends trimmed: Go strings.TrimSpace / strings.Trim, Python str.strip(). */
  function Trim(s: string, cls: CharClass): string
  {
    TrimRight(TrimLeft(s, cls), cls)
  }

  /** A string that is empty after trimming consists of class characters only. */
  lemma TrimEmpty(s: string, cls: CharClass)
    requires Trim(s, cls) == []
    ensures AllIn(s, cls)
  {
    var k := Span(s, cls);
    assert AllIn(s[k..][0..], cls);
    assert k == |s|;
    assert s[..k] == s;
  }

  /** `sep` occurs in `s` starting at position `j`. */
  predicate OccursAt(s: string, sep: string, j: nat)
  {
    j + |sep| <= |s| && s[j..j + |sep|] == sep
  }

  /** First position at or after `from` where `sep` occurs in `s`. */
  function IndexFrom(s: string, sep: string, from: nat): (r: Option<nat>)
    requires from <= |s|
    ensures r.Some? ==> from <= r.value && OccursAt(s, sep, r.value)
    ensures r.Some? ==> forall j: nat :: from <= j < r.value ==> !OccursAt(s, sep, j)
    ensures r.None? ==> forall j: nat :: from <= j ==> !OccursAt(s, sep, j)
    decreases |s| - from
  {
    if from + |sep| > |s| then None
    else if s[from..from + |sep|] == sep then Some(from)
    else if from == |s| then None
    else IndexFrom(s, sep, from + 1)
  }

  /** First occurrence of `sep` in `s`, if any. */
  function IndexOf(s: string, sep: string): Option<nat>
  {
    IndexFrom(s, sep, 0)
  }

  /** Python's `needle in hay` on strings. */
  predicate Contains(hay: string, needle: string)
  {
    IndexOf(hay, needle).Some?
  }

  /** A string in which `sep` does not occur. */
  predicate Free(s: string, sep: string)
  {
    forall j: nat :: j <= |s| ==> !OccursAt(s, sep, j)
  }

  /** A prefix of a string that has no occurrence of `sep` before `i` is free of `sep`. */
  lemma FreePrefix(s: string, sep: string, i: nat)
    requires |sep| > 0 && i <= |s|
    requires forall j: nat :: j < i ==> !OccursAt(s, sep, j)
    ensures Free(s[..i], sep)
  {
    forall j: nat | j <= i ensures !OccursAt(s[..i], sep, j) {
      if OccursAt(s[..i], sep, j) {
        assert s[..i][j..j + |sep|] == s[j..j + |sep|];
        assert OccursAt(s, sep, j) && j < i;
        assert false;
      }
    }
  }

  /**
   * Go strings.Split(s, sep) and Python s.split(sep) for a non-empty separator:
   * the pieces between successive leftmost, non-overlapping occurrences.
   */
  function Split(s: string, sep: string): (r: seq<string>)
    requires |sep| > 0
    ensures |r| >= 1
    ensures forall k :: 0 <= k < |r| ==> Free(r[k], sep)
    decreases |s|
  {
    match IndexOf(s, sep)
    case None => [s]
    case Some(i) =>
      FreePrefix(s, sep, i);
      [s[..i]] + Split(s[i + |sep|..], sep)
  }

  /** Inverse of Split: the pieces with `sep` between consecutive ones. */
  function Join(parts: seq<string>, sep: string): string
  {
    if |parts| == 0 then []
    else if |parts| == 1 then parts[0]
    else parts[0] + sep + Join(parts[1..], sep)
  }

  /** Splitting loses nothing: joining the pieces gives back the input. */
  lemma {:induction false} JoinSplit(s: string, sep: string)
    requires |sep| > 0
    ensures Join(Split(s, sep), sep) == s
    decreases |s|
  {
    var r := Split(s, sep);
    match IndexOf(s, sep)
    case None =>
      assert r == [s];
    case Some(i) =>
      var rest := s[i + |sep|..];
      JoinSplit(rest, sep);
      var tail := Split(rest, sep);
      assert r == [s[..i]] + tail;
      assert r[1..] == tail;
      assert Join(r, sep) == s[..i] + sep + Join(tail, sep);
      assert s[i..i + |sep|] == sep;
      assert s == s[..i] + s[i..i + |sep|] + rest;
  }

  /** `s` has no character that starts `sep`, so `sep` cannot start anywhere inside it. */
  predicate Clear(s: string, sep: string)
    requires |sep| > 0
  {
    forall i :: 0 <= i < |s| ==> s[i] != sep[0]
  }

  /** Splitting a string without the separator's first character gives it back whole. */
  lemma SplitClear(s: string, sep: string)
    requires |sep| > 0 && Clear(s, sep)
    ensures Split(s, sep) == [s]
  {
    forall j: nat | j <= |s| ensures !OccursAt(s, sep, j) {
      if j + |sep| <= |s| {
        assert s[j..j + |sep|][0] == s[j];
      }
    }
    assert IndexOf(s, sep) == None;
  }

  /** When the first field cannot hold the start of `sep`, the first cut is right after it. */
  lemma SplitFirst(a: string, b: string, sep: string)
    requires |sep| > 0 && Clear(a, sep)
    ensures Split(a + (sep + b), sep) == [a] + Split(b, sep)
  {
    var s := a + (sep + b);
    assert s[|a|..|a| + |sep|] == sep;
    assert OccursAt(s, sep, |a|);
    forall j: nat | j < |a| ensures !OccursAt(s, sep, j) {
      assert s[j] == a[j];
      if j + |sep| <= |s| {
        assert s[j..j + |sep|][0] == s[j];
      }
    }
    assert IndexOf(s, sep) == Some(|a|);
    assert s[..|a|] == a;
    assert s[|a| + |sep|..] == b;
  }

  /** A string in which `sep` occurs splits into two or more pieces. */
  lemma SplitOccurs(s: string, sep: string, j: nat)
    requires |sep| > 0 && OccursAt(s, sep, j)
    ensures |Split(s, sep)| >= 2
  {
    assert IndexOf(s, sep).Some?;
  }

  /** Go strings.SplitN(s, sep, 2) and Python s.split(sep, 1): cut at the first occurrence only. */
  function SplitOnce(s: string, sep: string): (r: seq<string>)
    requires |sep| > 0
    ensures 1 <= |r| <= 2
    ensures |r| == 1 <==> Free(s, sep)
    ensures |r| == 1 ==> r[0] == s
    ensures |r| == 2 ==> r[0] + sep + r[1] == s && Free(r[0], sep)
  {
    match IndexOf(s, sep)
    case None => [s]
    case Some(i) =>
      FreePrefix(s, sep, i);
      assert s == s[..i] + sep + s[i + |sep|..];
      [s[..i], s[i + |sep|..]]
  }

  /**
   * Python str.split() with no argument: the maximal runs of non-space
   * characters, in order; leading, trailing and repeated spaces give no token.
   */
  function SplitWhitespace(s: string): (r: seq<string>)
    ensures forall k :: 0 <= k < |r| ==> |r[k]| > 0 && NoneIn(r[k], PySpace)
    decreases |s|
  {
    var t := TrimLeft(s, PySpace);
    if t == [] then []
    else
      var n := SpanNot(t, PySpace);
      assert n > 0 by { assert !InClass(t[0], PySpace); }
      [t[..n]] + SplitWhitespace(t[n..])
  }

  /** A string of spaces only has no token. */
  lemma SplitWhitespaceOfBlank(s: string)
    requires AllIn(s, PySpace)
    ensures SplitWhitespace(s) == []
  {
  }

  /** A space-free non-empty string is a single token. */
  lemma SplitWhitespaceOfToken(s: string)
    requires |s| > 0 && NoneIn(s, PySpace)
    ensures SplitWhitespace(s) == [s]
  {
    assert Span(s, PySpace) == 0 by { assert !InClass(s[0], PySpace); }
    assert TrimLeft(s, PySpace) == s;
    SpanNotOfConcat(s, [], PySpace);
    assert s + [] == s;
    assert s[|s|..] == [];
  }

  /**
   * The whitespace around and between the tokens of SplitWhitespace: the run
   * before the first token, the run after each token up to the next, and the
   * run after the last.
   */
  function SpaceGaps(s: string): seq<string>
    decreases |s|
  {
    var k := Span(s, PySpace);
    var t := s[k..];
    if t == [] then [s]
    else
      var n := SpanNot(t, PySpace);
      assert n > 0 by { assert !InClass(t[0], PySpace); }
      [s[..k]] + SpaceGaps(t[n..])
  }

  /** gaps[0] + toks[0] + gaps[1] + ... + toks[n-1] + gaps[n]. */
  function Interleave(gaps: seq<string>, toks: seq<string>): string
    requires |gaps| == |toks| + 1
    decreases |toks|
  {
    if |toks| == 0 then gaps[0] else gaps[0] + toks[0] + Interleave(gaps[1..], toks[1..])
  }

  /**
   * The tokens of str.split() are the maximal non-space runs of the string, in
   * order: putting the whitespace runs back between them gives the string, every
   * gap is whitespace only, and the gaps between two tokens are non-empty.
   */
  lemma SplitWhitespaceRejoin(s: string)
    ensures |SpaceGaps(s)| == |SplitWhitespace(s)| + 1
    ensures Interleave(SpaceGaps(s), SplitWhitespace(s)) == s
    ensures forall i :: 0 <= i < |SpaceGaps(s)| ==> AllIn(SpaceGaps(s)[i], PySpace)
    ensures forall i :: 0 < i < |SplitWhitespace(s)| ==> |SpaceGaps(s)[i]| > 0
  {
    GapsCount(s);
    GapsRejoin(s);
    GapsSpace(s);
    GapsInner(s);
  }

  /** The whitespace in front of the first token of `s`. */
  function Lead(s: string): string
  {
    s[..Span(s, PySpace)]
  }

  /** The first token of `s`, when it has one. */
  function FirstToken(s: string): string
  {
    var t := s[Span(s, PySpace)..];
    t[..SpanNot(t, PySpace)]
  }

  /** What follows the first token of `s`. */
  function AfterToken(s: string): string
  {
    var t := s[Span(s, PySpace)..];
    t[SpanNot(t, PySpace)..]
  }

  /** One token taken off the front. */
  lemma SplitStep(s: string)
    requires s[Span(s, PySpace)..] != []
    ensures |FirstToken(s)| > 0 && |AfterToken(s)| < |s|
    ensures SpaceGaps(s) == [Lead(s)] + SpaceGaps(AfterToken(s))
    ensures SplitWhitespace(s) == [FirstToken(s)] + SplitWhitespace(AfterToken(s))
  {
    var t := s[Span(s, PySpace)..];
    assert TrimLeft(s, PySpace) == t;
    assert SpanNot(t, PySpace) > 0 by { assert !InClass(t[0], PySpace); }
  }

  /** The string is its leading whitespace, its first token and the rest, which starts with whitespace if anything. */
  lemma SplitShape(s: string)
    requires s[Span(s, PySpace)..] != []
    ensures s == Lead(s) + FirstToken(s) + AfterToken(s)
    ensures AfterToken(s) == [] || InClass(AfterToken(s)[0], PySpace)
  {
    var k := Span(s, PySpace);
    var n := SpanNot(s[k..], PySpace);
    assert FirstToken(s) == s[k..k + n];
    assert AfterToken(s) == s[k + n..];
    ThreeSlices(s, k, k + n);
  }

  lemma ThreeSlices<T>(s: seq<T>, i: nat, j: nat)
    requires i <= j <= |s|
    ensures s == s[..i] + s[i..j] + s[j..]
  {
  }

  lemma {:induction false} GapsCount(s: string)
    ensures |SpaceGaps(s)| == |SplitWhitespace(s)| + 1
    decreases |s|
  {
    if s[Span(s, PySpace)..] != [] {
      SplitStep(s);
      GapsCount(AfterToken(s));
    } else {
      assert TrimLeft(s, PySpace) == [];
    }
  }

  lemma {:induction false} GapsRejoin(s: string)
    ensures |SpaceGaps(s)| == |SplitWhitespace(s)| + 1
    ensures Interleave(SpaceGaps(s), SplitWhitespace(s)) == s
    decreases |s|
  {
    GapsCount(s);
    if s[Span(s, PySpace)..] != [] {
      SplitStep(s);
      SplitShape(s);
      GapsRejoin(AfterToken(s));
      var gaps := SpaceGaps(s);
      var toks := SplitWhitespace(s);
      assert gaps[0] == Lead(s) && toks[0] == FirstToken(s);
      assert gaps[1..] == SpaceGaps(AfterToken(s)) && toks[1..] == SplitWhitespace(AfterToken(s));
    } else {
      assert TrimLeft(s, PySpace) == [];
      assert s[..Span(s, PySpace)] == s;
    }
  }

  lemma {:induction false} GapsSpace(s: string)
    ensures forall i :: 0 <= i < |SpaceGaps(s)| ==> AllIn(SpaceGaps(s)[i], PySpace)
    decreases |s|
  {
    if s[Span(s, PySpace)..] != [] {
      SplitStep(s);
      GapsSpace(AfterToken(s));
      var gaps := SpaceGaps(s);
      forall i | 0 <= i < |gaps| ensures AllIn(gaps[i], PySpace) {
        if i > 0 { assert gaps[i] == SpaceGaps(AfterToken(s))[i - 1]; }
      }
    } else {
      assert TrimLeft(s, PySpace) == [];
      assert s[..Span(s, PySpace)] == s;
    }
  }

  lemma {:induction false} GapsInner(s: string)
    ensures forall i :: 0 < i < |SplitWhitespace(s)| ==> i < |SpaceGaps(s)| && |SpaceGaps(s)[i]| > 0
    decreases |s|
  {
    GapsCount(s);
    if s[Span(s, PySpace)..] != [] {
      SplitStep(s);
      SplitShape(s);
      var u := AfterToken(s);
      GapsInner(u);
      GapsCount(u);
      if |SplitWhitespace(u)| > 0 {
        FirstGapOfSpaced(u);
      }
      var gaps := SpaceGaps(s);
      forall i | 0 < i < |SplitWhitespace(s)| ensures |gaps[i]| > 0 {
        assert gaps[i] == SpaceGaps(u)[i - 1];
      }
    } else {
      assert TrimLeft(s, PySpace) == [];
    }
  }

  /** After a token, a string with a further token starts with whitespace, so its first gap is non-empty. */
  lemma FirstGapOfSpaced(u: string)
    requires |SplitWhitespace(u)| > 0
    requires u == [] || InClass(u[0], PySpace)
    ensures |SpaceGaps(u)| > 0 && |SpaceGaps(u)[0]| > 0
  {
    assert u != [];
    assert Span(u, PySpace) > 0;
  }

  /** Flattening a sequence of sequences. */
  function Concat<T>(ss: seq<seq<T>>): seq<T>
  {
    if |ss| == 0 then [] else ss[0] + Concat(ss[1..])
  }

  lemma {:induction false} ConcatAppend<T>(a: seq<seq<T>>, b: seq<seq<T>>)
    ensures Concat(a + b) == Concat(a) + Concat(b)
    decreases |a|
  {
    if |a| == 0 {
      assert a + b == b;
    } else {
      ConcatAppend(a[1..], b);
      assert (a + b)[1..] == a[1..] + b;
    }
  }

  lemma ConcatSnoc<T>(a: seq<seq<T>>, x: seq<T>)
    ensures Concat(a + [x]) == Concat(a) + x
  {
    ConcatAppend(a, [x]);
    assert Concat([x]) == x + Concat<T>([]);
  }

  lemma ConcatCons<T>(x: seq<T>, rest: seq<seq<T>>)
    ensures Concat([x] + rest) == x + Concat(rest)
  {
    assert ([x] + rest)[1..] == rest;
  }

  /** A slice is the slice up to a midpoint followed by the slice from it. */
  lemma SliceSplit<T>(s: seq<T>, i: nat, j: nat, k: nat)
    requires i <= j <= k <= |s|
    ensures s[i..k] == s[i..j] + s[j..k]
  {
  }

  // ---------------------------------------------------------------------
  // Scanning: the building blocks of the hand-written recognisers
  // ---------------------------------------------------------------------

  /** The longest run of `cls` at the front of `s`, if it has at least `min` characters. */
  function Run(s: string, cls: CharClass, min: nat): (r: Option<(string, string)>)
    ensures r.Some? ==> r.value.0 + r.value.1 == s && |r.value.0| >= min && AllIn(r.value.0, cls)
  {
    var n := Span(s, cls);
    if n < min then None else Some((s[..n], s[n..]))
  }

  /** What follows the literal `lit` at the front of `s`. */
  function Lit(s: string, lit: string): (r: Option<string>)
    ensures r.Some? ==> lit + r.value == s
  {
    if |lit| <= |s| && s[..|lit|] == lit then Some(s[|lit|..]) else None
  }

  /** `EN` or `EX` at the front of `s`: the status alternative of both trace grammars. */
  function Status(s: string): (r: Option<(string, string)>)
    ensures r.Some? ==> (r.value.0 == "EN" || r.value.0 == "EX") && r.value.0 + r.value.1 == s
  {
    match Lit(s, "EN")
    case Some(rest) => Some(("EN", rest))
    case None =>
      match Lit(s, "EX")
      case Some(rest) => Some(("EX", rest))
      case None => None
  }

  lemma RunOfConcat(a: string, b: string, cls: CharClass, min: nat)
    requires AllIn(a, cls) && |a| >= min
    requires b == [] || !InClass(b[0], cls)
    ensures Run(a + b, cls, min) == Some((a, b))
  {
    SpanOfConcat(a, b, cls);
    assert (a + b)[..|a|] == a;
    assert (a + b)[|a|..] == b;
  }

  lemma LitOfConcat(lit: string, b: string)
    ensures Lit(lit + b, lit) == Some(b)
  {
    assert (lit + b)[..|lit|] == lit;
    assert (lit + b)[|lit|..] == b;
  }

  // ---------------------------------------------------------------------
  // Decimal numbers
  // ---------------------------------------------------------------------

  function DigitValue(c: char): nat
    requires IsAsciiDigit(c)
  {
    c as int - '0' as int
  }

  function DigitChar(d: nat): (c: char)
    requires d < 10
    ensures IsAsciiDigit(c) && DigitValue(c) == d
  {
    ('0' as int + d) as char
  }

  /** The value of a string of decimal digits. */
  function DigitsValue(s: string): nat
    requires AllIn(s, Digit)
    decreases |s|
  {
    if s == [] then 0 else DigitsValue(s[..|s| - 1]) * 10 + DigitValue(s[|s| - 1])
  }

  /** Go's %d and Python's str() of a natural number. */
  function NatToDecimal(n: nat): (r: string)
    ensures |r| >= 1 && AllIn(r, Digit)
    ensures r[0] == '0' ==> n == 0
    decreases n
  {
    if n < 10 then [DigitChar(n)] else NatToDecimal(n / 10) + [DigitChar(n % 10)]
  }

  /** Go's %d of a signed integer. */
  function IntToDecimal(i: int): string
  {
    if i < 0 then "-" + NatToDecimal(-i) else NatToDecimal(i)
  }

  /** Printing and then reading back a number gives the number. */
  lemma {:induction false} DecimalRoundTrip(n: nat)
    ensures DigitsValue(NatToDecimal(n)) == n
    decreases n
  {
    if n >= 10 {
      var x := NatToDecimal(n / 10);
      DecimalRoundTrip(n / 10);
      assert (x + [DigitChar(n % 10)])[..|x|] == x;
    }
  }

  /**
   * Go strconv.ParseInt(s, 10, 64) / strconv.Atoi(s) without range errors:
   * an optional sign followed by one or more ASCII digits.
   */
  function GoParseInt(s: string): Option<int>
  {
    if |s| >= 2 && (s[0] == '+' || s[0] == '-') && AllIn(s[1..], Digit) then
      Some(if s[0] == '-' then -(DigitsValue(s[1..]) as int) else DigitsValue(s[1..]))
    else if |s| >= 1 && AllIn(s, Digit) then Some(DigitsValue(s))
    else None
  }

  /** `v, _ := strconv.Atoi(s)`: a string that is not a number reads as 0. */
  function GoAtoi(s: string): (v: int)
    ensures GoParseInt(s).None? ==> v == 0
  {
    match GoParseInt(s)
    case Some(v) => v
    case None => 0
  }

  /** Atoi reads Go's %d text back to its integer, and text that does not end in a digit reads as 0. */
  lemma GoAtoiMeaning(i: int, s: string)
    ensures GoAtoi(IntToDecimal(i)) == i
    ensures (|s| == 0 || !IsAsciiDigit(s[|s| - 1])) ==> GoAtoi(s) == 0
  {
    GoParseDecimal(i);
    if |s| > 0 && !IsAsciiDigit(s[|s| - 1]) {
      assert !InClass(s[|s| - 1], Digit);
      if |s| >= 2 {
        assert s[1..][|s| - 2] == s[|s| - 1];
      }
    }
  }

  /** Go's %d output parses back to the same integer. */
  lemma GoParseDecimal(i: int)
    ensures GoParseInt(IntToDecimal(i)) == Some(i)
  {
    if i < 0 {
      var d := NatToDecimal(-i);
      var s := "-" + d;
      assert s[1..] == d;
      assert |s| >= 2 && s[0] == '-';
      DecimalRoundTrip(-i);
      assert GoParseInt(s) == Some(-(DigitsValue(d) as int));
    } else {
      var d := NatToDecimal(i);
      assert InClass(d[0], Digit);
      DecimalRoundTrip(i);
      assert GoParseInt(d) == Some(DigitsValue(d));
    }
  }

  /** Digits in which single underscores may separate digits: Python's integer literal body. */
  predicate IsDigitGroups(s: string)
  {
    && |s| >= 1
    && IsAsciiDigit(s[0]) && IsAsciiDigit(s[|s| - 1])
    && (forall i :: 0 <= i < |s| ==> IsAsciiDigit(s[i]) || s[i] == '_')
    && (forall i :: 0 <= i < |s| - 1 ==> s[i] == '_' ==> s[i + 1] != '_')
  }

  /** The digits of `s` with the underscores removed. */
  function DropUnderscores(s: string): (r: string)
    requires forall i :: 0 <= i < |s| ==> IsAsciiDigit(s[i]) || s[i] == '_'
    ensures AllIn(r, Digit)
    decreases |s|
  {
    if s == [] then []
    else (if s[0] == '_' then [] else [s[0]]) + DropUnderscores(s[1..])
  }

  /**
   * Python int(s) for a str argument: surrounding whitespace, an optional
   * sign and decimal digits with single underscores between them; anything
   * else raises ValueError, modelled as None.
   */
  function PyParseInt(s: string): Option<int>
  {
    var t := Trim(s, PySpace);
    if |t| >= 2 && (t[0] == '+' || t[0] == '-') && IsDigitGroups(t[1..]) then
      var v := DigitsValue(DropUnderscores(t[1..]));
      Some(if t[0] == '-' then -(v as int) else v)
    else if IsDigitGroups(t) then Some(DigitsValue(DropUnderscores(t)))
    else None
  }

  /** Digits are not spaces, so stripping leaves a digit string alone. */
  lemma TrimDigits(s: string)
    requires |s| >= 1 && AllIn(s, Digit)
    ensures Trim(s, PySpace) == s
  {
    assert !InClass(s[0], PySpace);
    assert Span(s, PySpace) == 0;
    assert s[0..] == s;
    assert !InClass(s[|s| - 1], PySpace);
  }

  /** Python str(n) parses back with int(). */
  lemma PyParseDecimal(n: nat)
    ensures PyParseInt(NatToDecimal(n)) == Some(n)
  {
    var d := NatToDecimal(n);
    TrimDigits(d);
    assert !(d[0] == '+' || d[0] == '-');
    assert IsDigitGroups(d);
    DropNoUnderscores(d);
    DecimalRoundTrip(n);
  }

  lemma {:induction false} DropNoUnderscores(s: string)
    requires AllIn(s, Digit)
    ensures DropUnderscores(s) == s
    decreases |s|
  {
    if s != [] {
      DropNoUnderscores(s[1..]);
      assert [s[0]] + s[1..] == s;
    }
  }

  // ---------------------------------------------------------------------
  // UTF-8
  // ---------------------------------------------------------------------

  /** The UTF-8 encoding of one Unicode scalar value. */
  function Utf8Char(c: char): (r: seq<byte>)
    ensures 1 <= |r| <= 4
    ensures |r| == 1 <==> c as int < 0x80
    ensures |r| == 1 ==> r[0] == c as int
  {
    var n := c as int;
    if n < 0x80 then [n]
    else if n < 0x800 then [0xC0 + n / 64, 0x80 + n % 64]
    else if n < 0x1_0000 then [0xE0 + n / 4096, 0x80 + (n / 64) % 64, 0x80 + n % 64]
    else [0xF0 + n / 262144, 0x80 + (n / 4096) % 64, 0x80 + (n / 64) % 64, 0x80 + n % 64]
  }

  /** Python str.encode("utf-8") and Go's []byte(s). */
  function Utf8(s: string): seq<byte>
  {
    if s == [] then [] else Utf8Char(s[0]) + Utf8(s[1..])
  }

  lemma {:induction false} Utf8Append(a: string, b: string)
    ensures Utf8(a + b) == Utf8(a) + Utf8(b)
    decreases |a|
  {
    if a != [] {
      Utf8Append(a[1..], b);
      assert (a + b)[1..] == a[1..] + b;
    } else {
      assert a + b == b;
    }
  }

  /** Encoding never shortens a string, and keeps the length of ASCII text. */
  lemma {:induction false} Utf8Length(s: string)
    ensures |Utf8(s)| >= |s|
    ensures (forall i :: 0 <= i < |s| ==> s[i] as int < 0x80) ==> |Utf8(s)| == |s|
    decreases |s|
  {
    if s != [] {
      Utf8Length(s[1..]);
    }
  }
}
