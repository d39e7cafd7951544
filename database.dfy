/**
 * The standalone meta-log dumper (database.py): every line of the meta log
 * that the trace-line pattern matches becomes an event record whose spec
 * text is split on whitespace into key=value items. An item without `=`
 * makes the tuple unpacking raise ValueError, which ends the run.
 */
module Database {
  import opened Wrappers
  import opened Strings
  import opened KvMaps
  import opened RexFsm

  /** The "meta" part of a dumped record (its wall-clock datetime is not modelled). */
  datatype Meta = Meta(time: string, pid: string, tid: string, proc: string)

  /** One dumped record. */
  datatype Event = Event(meta: Meta, status: string, operand: string, spec: map<string, string>)

  /** `k, v = item.split("=", 1)`: the pair, or None where the unpacking raises ValueError. */
  function SpecItem(item: string): Option<(string, string)>
  {
    var parts := SplitOnce(item, "=");
    if |parts| == 2 then Some((parts[0], parts[1])) else None
  }

  /** The unpacking succeeds iff the item holds `=`; the key has no `=` and key, `=` and value make up the item. */
  lemma SpecItemMeaning(item: string)
    ensures SpecItem(item).Some? <==> !Free(item, "=")
    ensures SpecItem(item).Some? ==> SpecItem(item).value.0 + "=" + SpecItem(item).value.1 == item && Free(SpecItem(item).value.0, "=")
  {
  }

  /** The pairs of all items, or None when one of them has no `=`. */
  function SpecPairs(items: seq<string>): Option<seq<(string, string)>>
  {
    Collect(items, SpecItem)
  }

  /** The pairs fail exactly when some item has no `=`, and otherwise are the items' pairs in order. */
  lemma SpecPairsMeaning(items: seq<string>)
    ensures SpecPairs(items).None? <==> exists k :: 0 <= k < |items| && Free(items[k], "=")
    ensures SpecPairs(items).Some? ==> forall k :: 0 <= k < |items| ==> SpecItem(items[k]) == Some(SpecPairs(items).value[k])
  {
    CollectFail(items, SpecItem);
    forall k | 0 <= k < |items| ensures SpecItem(items[k]).None? <==> Free(items[k], "=") {
      SpecItemMeaning(items[k]);
    }
    if SpecPairs(items).Some? {
      CollectItems(items, SpecItem);
    }
  }

  /** The spec dictionary of a spec text, or None where the parse raises. */
  function SpecMap(specStr: string): Option<map<string, string>>
  {
    if Trim(specStr, PySpace) == [] then Some(map[])
    else
      var ps :- SpecPairs(SplitWhitespace(specStr));
      Some(BuildMap(ps))
  }

  /** The spec loop of database.py:39-42, item by item. */
  method ParseSpec(specStr: string) returns (r: Option<map<string, string>>)
    ensures r == SpecMap(specStr)
  {
    if Trim(specStr, PySpace) == [] {
      return Some(map[]);
    }
    var items := SplitWhitespace(specStr);
    var spec: map<string, string> := map[];
    ghost var pairs: seq<(string, string)> := [];
    var i := 0;
    while i < |items|
      invariant 0 <= i <= |items|
      invariant SpecPairs(items[..i]) == Some(pairs)
      invariant spec == BuildMap(pairs)
    {
      var kv := SpecItem(items[i]);
      if kv.None? {
        CollectFail(items, SpecItem);
        return None;
      }
      CollectPrefixStep(items, i, SpecItem);
      BuildMapSnoc(pairs, kv.value);
      spec := spec[kv.value.0 := kv.value.1];
      pairs := pairs + [kv.value];
      i := i + 1;
    }
    assert items[..i] == items;
    r := Some(spec);
  }

  /** The spec key of an item: the text before its first `=`. */
  function ItemKey(item: string): string
  {
    SplitOnce(item, "=")[0]
  }

  /** The spec value of an item: the text after its first `=`. */
  function ItemValue(item: string): string
  {
    var parts := SplitOnce(item, "=");
    if |parts| == 2 then parts[1] else ""
  }

  /** Some item has the key `key`. */
  predicate SomeItemWith(items: seq<string>, key: string)
  {
    exists k :: 0 <= k < |items| && ItemKey(items[k]) == key
  }

  /** Item `k` is the last item whose key is `key`. */
  predicate LastItemWith(items: seq<string>, key: string, k: int)
  {
    && 0 <= k < |items| && ItemKey(items[k]) == key
    && forall j :: k < j < |items| ==> ItemKey(items[j]) != key
  }

  /** Assigning the items' pairs binds each key to the value of its last item. */
  lemma PairsMapMeaning(items: seq<string>, key: string)
    requires SpecPairs(items).Some?
    ensures key in BuildMap(SpecPairs(items).value) <==> SomeItemWith(items, key)
    ensures forall k :: LastItemWith(items, key, k) ==> BuildMap(SpecPairs(items).value)[key] == ItemValue(items[k])
  {
    var ps := SpecPairs(items).value;
    CollectItems(items, SpecItem);
    LastWins(ps, key);
    forall k | 0 <= k < |items| ensures ps[k] == (ItemKey(items[k]), ItemValue(items[k])) {
      ItemPair(items[k]);
    }
    forall k | LastItemWith(items, key, k)
      ensures IsLastWith(ps, key, k)
    {
    }
    if exists k :: 0 <= k < |items| && ItemKey(items[k]) == key {
      var k :| 0 <= k < |items| && ItemKey(items[k]) == key;
      assert ps[k].0 == key;
    }
  }

  lemma ItemPair(item: string)
    requires SpecItem(item).Some?
    ensures SpecItem(item).value == (ItemKey(item), ItemValue(item))
  {
  }

  /**
   * The spec parse raises exactly when some item has no `=`; otherwise every
   * item's key is bound, to the value after the first `=` of its last item.
   * The guard on an all-space spec changes nothing: such a spec has no item.
   */
  lemma SpecMapMeaning(specStr: string, key: string)
    ensures var items := SplitWhitespace(specStr);
      SpecMap(specStr).None? <==> exists k :: 0 <= k < |items| && Free(items[k], "=")
    ensures var items := SplitWhitespace(specStr);
      SpecMap(specStr).Some? ==>
        (key in SpecMap(specStr).value <==> SomeItemWith(items, key))
    ensures var items := SplitWhitespace(specStr);
      forall k :: SpecMap(specStr).Some? && LastItemWith(items, key, k) ==> SpecMap(specStr).value[key] == ItemValue(items[k])
  {
    SpecMapFail(specStr);
    SpecMapBinds(specStr, key);
  }

  lemma SpecMapFail(specStr: string)
    ensures var items := SplitWhitespace(specStr);
      SpecMap(specStr).None? <==> exists k :: 0 <= k < |items| && Free(items[k], "=")
  {
    var items := SplitWhitespace(specStr);
    if Trim(specStr, PySpace) == [] {
      TrimEmpty(specStr, PySpace);
      SplitWhitespaceOfBlank(specStr);
    } else {
      SpecPairsMeaning(items);
    }
  }

  lemma SpecMapBinds(specStr: string, key: string)
    ensures var items := SplitWhitespace(specStr);
      SpecMap(specStr).Some? ==>
        (key in SpecMap(specStr).value <==> SomeItemWith(items, key))
    ensures var items := SplitWhitespace(specStr);
      forall k :: SpecMap(specStr).Some? && LastItemWith(items, key, k) ==> SpecMap(specStr).value[key] == ItemValue(items[k])
  {
    var items := SplitWhitespace(specStr);
    if Trim(specStr, PySpace) == [] {
      TrimEmpty(specStr, PySpace);
      SplitWhitespaceOfBlank(specStr);
      assert SpecMap(specStr) == Some(map[]) && |items| == 0;
    } else if SpecPairs(items).Some? {
      var m := BuildMap(SpecPairs(items).value);
      assert SpecMap(specStr) == Some(m);
      PairsMapMeaning(items, key);
    } else {
      assert SpecMap(specStr).None?;
    }
  }

  /** What one line of the meta log contributes to the dump. */
  datatype Outcome = Skip | Emit(event: Event) | Raise

  function Classify(line: string): Outcome
  {
    match MatchString(line)
    case None => Skip
    case Some(m) =>
      match SpecMap(m.spec)
      case None => Raise
      case Some(spec) => Emit(Event(Meta(m.time, m.pid, m.tid, m.proc), m.status, m.operand, spec))
  }

  function Outcomes(lines: seq<string>): (os: seq<Outcome>)
    ensures |os| == |lines|
    ensures forall i :: 0 <= i < |lines| ==> os[i] == Classify(lines[i])
  {
    seq(|lines|, i requires 0 <= i < |lines| => Classify(lines[i]))
  }

  /** The records dumped for the outcomes of the lines, and whether the run ended in ValueError. */
  function Dump(os: seq<Outcome>): (seq<Event>, bool)
  {
    if |os| == 0 then ([], false)
    else
      match os[0]
      case Skip => Dump(os[1..])
      case Raise => ([], true)
      case Emit(e) => var rest := Dump(os[1..]); ([e] + rest.0, rest.1)
  }

  /** The events of the lines that match and parse, in order. */
  function Emitted(os: seq<Outcome>): seq<Event>
  {
    if |os| == 0 then []
    else Printed(os[0]) + Emitted(os[1..])
  }

  /** The records a single outcome prints. */
  function Printed(o: Outcome): seq<Event>
  {
    if o.Emit? then [o.event] else []
  }

  lemma DumpStep(os: seq<Outcome>)
    requires |os| > 0 && os[0] != Raise
    ensures Dump(os) == (Printed(os[0]) + Dump(os[1..]).0, Dump(os[1..]).1)
  {
    if os[0].Skip? {
      assert Printed(os[0]) + Dump(os[1..]).0 == Dump(os[1..]).0;
    }
  }

  /** The body of the loop of database.py:21-49 for one line. */
  method ClassifyLine(line: string) returns (o: Outcome)
    ensures o == Classify(line)
  {
    var m := MatchString(line);
    if m.None? {
      return Skip;
    }
    var spec := ParseSpec(m.value.spec);
    if spec.None? {
      return Raise;
    }
    var meta := Meta(m.value.time, m.value.pid, m.value.tid, m.value.proc);
    o := Emit(Event(meta, m.value.status, m.value.operand, spec.value));
  }

  /** The main loop of database.py:20-51 over the lines of the meta log. */
  method DumpLog(lines: seq<string>) returns (printed: seq<Event>, raised: bool)
    ensures (printed, raised) == Dump(Outcomes(lines))
  {
    ghost var os := Outcomes(lines);
    printed := [];
    var i := 0;
    assert os[i..] == os;
    assert [] + Dump(os).0 == Dump(os).0;
    while i < |lines|
      invariant 0 <= i <= |lines|
      invariant Dump(os) == (printed + Dump(os[i..]).0, Dump(os[i..]).1)
    {
      assert os[i..][1..] == os[i + 1..];
      ghost var tail := Dump(os[i + 1..]);
      var o := ClassifyLine(lines[i]);
      assert os[i..][0] == os[i] == o;
      if o.Raise? {
        assert printed + [] == printed;
        return printed, true;
      }
      DumpStep(os[i..]);
      assert printed + (Printed(o) + tail.0) == (printed + Printed(o)) + tail.0;
      printed := printed + Printed(o);
      i := i + 1;
    }
    assert os[i..] == [];
    assert printed + [] == printed;
    raised := false;
  }

  /**
   * A run that meets no bad spec dumps exactly the matching lines' events;
   * otherwise it dumps those before the first bad line and raises.
   */
  lemma {:induction false} DumpMeaning(os: seq<Outcome>)
    ensures (forall i :: 0 <= i < |os| ==> os[i] != Raise) ==> Dump(os) == (Emitted(os), false)
    ensures forall i :: (0 <= i < |os| && os[i] == Raise && (forall j :: 0 <= j < i ==> os[j] != Raise)) ==>
      Dump(os) == (Emitted(os[..i]), true)
    decreases |os|
  {
    if |os| > 0 {
      var rest := os[1..];
      DumpMeaning(rest);
      forall i | 0 <= i < |os| && os[i] == Raise && (forall j :: 0 <= j < i ==> os[j] != Raise)
        ensures Dump(os) == (Emitted(os[..i]), true)
      {
        if i == 0 {
          assert os[..i] == [];
        } else {
          DumpStep(os);
          assert os[..i][0] == os[0];
          assert rest[i - 1] == os[i];
          assert os[..i][1..] == rest[..i - 1];
          assert forall j :: 0 <= j < i - 1 ==> rest[j] != Raise by {
            forall j | 0 <= j < i - 1 ensures rest[j] != Raise {
              assert rest[j] == os[j + 1];
            }
          }
        }
      }
      if forall i :: 0 <= i < |os| ==> os[i] != Raise {
        assert forall i :: 0 <= i < |rest| ==> rest[i] != Raise by {
          forall i | 0 <= i < |rest| ensures rest[i] != Raise {
            assert rest[i] == os[i + 1];
          }
        }
        DumpStep(os);
      }
    }
  }
}
