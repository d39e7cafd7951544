/**
 * The loader's reductors (include/components/loader/reductors.go). Each
 * reductor receives the packets whose trace key hashes to it, keeps the
 * first packet of a key pending, and when a second packet with that key
 * arrives merges the two into one packet for the writer of the start packet's
 * partition.
 */
module Reductor {
  import opened Wrappers
  import opened Strings
  import opened GoReader

  /**
   * `merge(start, end)`: the start packet with `diff` set to the timestamp
   * difference and then every kv entry of the end packet copied over.
   */
  function Merge(start: Packet, end: Packet): Packet
  {
    var diff := end.traceEvent.timestamp - start.traceEvent.timestamp;
    var kv := start.traceEvent.kv["diff" := IntToDecimal(diff)] + end.traceEvent.kv;
    start.(traceEvent := start.traceEvent.(kv := kv))
  }

  /**
   * The merged packet is the start packet except for its kv map, whose keys are
   * those of both packets plus `diff`; the end packet wins on every key it has,
   * `diff` holds the decimal timestamp difference unless the end packet has its
   * own `diff`, and every other key keeps the start packet's value.
   */
  lemma MergeMeaning(start: Packet, end: Packet, k: string)
    ensures var m := Merge(start, end);
      && m.partitionIndex == start.partitionIndex && m.traceKey == start.traceKey
      && m.traceEvent.(kv := start.traceEvent.kv) == start.traceEvent
      && m.traceEvent.kv.Keys == start.traceEvent.kv.Keys + end.traceEvent.kv.Keys + {"diff"}
    ensures var kv := Merge(start, end).traceEvent.kv;
      && (k in end.traceEvent.kv ==> kv[k] == end.traceEvent.kv[k])
      && (k !in end.traceEvent.kv && k == "diff" ==>
            GoParseInt(kv[k]) == Some(end.traceEvent.timestamp - start.traceEvent.timestamp))
      && (k !in end.traceEvent.kv && k != "diff" && k in start.traceEvent.kv ==> kv[k] == start.traceEvent.kv[k])
  {
    GoParseDecimal(end.traceEvent.timestamp - start.traceEvent.timestamp);
  }

  /** Which of the two packets the reductor takes as the start: the stored one iff it is an ENTER. */
  function Pair(stored: Packet, incoming: Packet): Packet
  {
    if stored.traceEvent.eventType == "EN" then Merge(stored, incoming) else Merge(incoming, stored)
  }

  /**
   * When one packet of the pair is the ENTER and the other the EXIT, in either
   * arrival order, the merged packet is built on the ENTER and its diff runs
   * from the ENTER to the EXIT.
   */
  lemma PairStartsAtEnter(stored: Packet, incoming: Packet, enter: Packet, exit: Packet)
    requires {stored, incoming} == {enter, exit}
    requires enter.traceEvent.eventType == "EN" && exit.traceEvent.eventType == "EX"
    requires "diff" !in exit.traceEvent.kv
    ensures Pair(stored, incoming).traceEvent.eventType == "EN"
    ensures Pair(stored, incoming).partitionIndex == enter.partitionIndex
    ensures GoParseInt(Pair(stored, incoming).traceEvent.kv["diff"])
         == Some(exit.traceEvent.timestamp - enter.traceEvent.timestamp)
  {
    assert stored == enter || stored == exit;
    assert incoming in {enter, exit};
    if stored == enter {
      assert incoming == exit;
    } else {
      assert incoming == enter;
    }
    MergeMeaning(enter, exit, "diff");
  }

  /** A merged packet bound for the writer of the given partition. */
  datatype Sent = Sent(writer: int, packet: Packet)

  /** The reductor's state: pending packets by trace key, the two counters, and what it has sent. */
  datatype Snapshot = Snapshot(memory: map<string, Packet>, readLogs: nat, sentLogs: nat, sent: seq<Sent>)

  const Init := Snapshot(map[], 0, 0, [])

  /** One iteration of the loop of reductors.go:36-57. */
  function Step(s: Snapshot, pkt: Packet): Snapshot
  {
    if pkt.traceKey in s.memory then
      var merged := Pair(s.memory[pkt.traceKey], pkt);
      Snapshot(s.memory - {pkt.traceKey}, s.readLogs + 1, s.sentLogs + 1, s.sent + [Sent(merged.partitionIndex, merged)])
    else
      Snapshot(s.memory[pkt.traceKey := pkt], s.readLogs + 1, s.sentLogs, s.sent)
  }

  /** Every pending packet is stored under its own key; every packet read is pending or half of a pair sent. */
  predicate Consistent(s: Snapshot)
  {
    && s.readLogs == 2 * s.sentLogs + |s.memory|
    && |s.sent| == s.sentLogs
    && forall k :: k in s.memory ==> s.memory[k].traceKey == k
  }

  lemma StepConsistent(s: Snapshot, pkt: Packet)
    requires Consistent(s)
    ensures Consistent(Step(s, pkt))
  {
    if pkt.traceKey in s.memory {
      assert |s.memory - {pkt.traceKey}| == |s.memory| - 1;
    }
  }

  /** A key is pending after a packet iff it was pending before or the packet carries it, but not both. */
  lemma StepPending(s: Snapshot, pkt: Packet, k: string)
    ensures k in Step(s, pkt).memory <==> (k in s.memory) != (pkt.traceKey == k)
  {
  }

  /** The state after a sequence of packets, first to last. */
  function Run(s: Snapshot, pkts: seq<Packet>): Snapshot
    decreases |pkts|
  {
    if |pkts| == 0 then s else Step(Run(s, pkts[..|pkts| - 1]), pkts[|pkts| - 1])
  }

  /** How many of the packets carry the key. */
  function CountKey(pkts: seq<Packet>, k: string): nat
  {
    if |pkts| == 0 then 0
    else CountKey(pkts[..|pkts| - 1], k) + (if pkts[|pkts| - 1].traceKey == k then 1 else 0)
  }

  /**
   * From the empty reductor, the counters stay tied to the memory, one packet is
   * sent per pair, and a key is pending exactly when an odd number of the
   * packets carried it: packets of a key pair up strictly two by two, in arrival order.
   */
  lemma {:induction false} RunMeaning(pkts: seq<Packet>, k: string)
    ensures Consistent(Run(Init, pkts))
    ensures Run(Init, pkts).readLogs == |pkts|
    ensures k in Run(Init, pkts).memory <==> CountKey(pkts, k) % 2 == 1
  {
    RunCounters(pkts);
    RunPending(pkts, k);
    OddCountParity(pkts, k);
  }

  lemma {:induction false} RunCounters(pkts: seq<Packet>)
    ensures Consistent(Run(Init, pkts))
    ensures Run(Init, pkts).readLogs == |pkts|
    decreases |pkts|
  {
    if |pkts| > 0 {
      RunCounters(pkts[..|pkts| - 1]);
      StepConsistent(Run(Init, pkts[..|pkts| - 1]), pkts[|pkts| - 1]);
    }
  }

  /** Whether an odd number of the packets carry the key. */
  function OddCount(pkts: seq<Packet>, k: string): bool
  {
    if |pkts| == 0 then false
    else OddCount(pkts[..|pkts| - 1], k) != (pkts[|pkts| - 1].traceKey == k)
  }

  lemma {:induction false} RunPending(pkts: seq<Packet>, k: string)
    ensures k in Run(Init, pkts).memory <==> OddCount(pkts, k)
    decreases |pkts|
  {
    if |pkts| > 0 {
      RunPending(pkts[..|pkts| - 1], k);
      StepPending(Run(Init, pkts[..|pkts| - 1]), pkts[|pkts| - 1], k);
    }
  }

  lemma {:induction false} OddCountParity(pkts: seq<Packet>, k: string)
    ensures OddCount(pkts, k) <==> CountKey(pkts, k) % 2 == 1
    decreases |pkts|
  {
    if |pkts| > 0 {
      OddCountParity(pkts[..|pkts| - 1], k);
      if pkts[|pkts| - 1].traceKey == k {
        ParityStep(CountKey(pkts[..|pkts| - 1], k));
      }
    }
  }

  lemma ParityStep(c: nat)
    ensures (c + 1) % 2 == 1 <==> c % 2 != 1
  {
  }

  /** The reductor worker of reductors.go:12-28, its channels replaced by the sequence of what it sends. */
  class ReductorWorker {
    var memory: map<string, Packet>
    var readLogs: nat
    var sentLogs: nat
    var sent: seq<Sent>

    function State(): Snapshot
      reads this
    {
      Snapshot(memory, readLogs, sentLogs, sent)
    }

    predicate Valid()
      reads this
    {
      Consistent(State())
    }

    constructor ()
      ensures Valid() && State() == Init
    {
      memory := map[];
      readLogs := 0;
      sentLogs := 0;
      sent := [];
    }

    /**
     * Receiving a packet: count it, then either store it under its key or merge
     * it with the pending packet of its key, send the result to the start
     * packet's partition and drop the key.
     */
    method Receive(pkt: Packet)
      requires Valid()
      modifies this
      ensures Valid()
      ensures State() == Step(old(State()), pkt)
    {
      StepConsistent(State(), pkt);
      readLogs := readLogs + 1;
      if pkt.traceKey in memory {
        var val := memory[pkt.traceKey];
        var mergedPkt: Packet;
        if val.traceEvent.eventType == "EN" {
          mergedPkt := Merge(val, pkt);
        } else {
          mergedPkt := Merge(pkt, val);
        }
        sent := sent + [Sent(mergedPkt.partitionIndex, mergedPkt)];
        sentLogs := sentLogs + 1;
        memory := memory - {pkt.traceKey};
      } else {
        memory := memory[pkt.traceKey := pkt];
      }
    }
  }
}
