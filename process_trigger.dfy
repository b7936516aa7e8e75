/** Rising-edge detection on a parsed TTL trigger line (`find_rising_edges`).
    A row passes the mask when the previous row's signal is 0 and its own is 1;
    the timestamps of the passing rows, in input order and re-indexed from 0,
    are the edges. The same mask is used by the variable-frequency data generator. */
module ProcessTrigger {

  /** One row of the trigger table: `timestamp` in seconds and the `signal` level. */
  datatype TriggerSample = TriggerSample(timestamp: real, signal: real)

  /** Row `i` passes the mask: it has a predecessor (row 0 has none, its shifted
      value is missing) whose signal equals 0, and its own signal equals 1. */
  predicate IsRisingEdge(trigger: seq<TriggerSample>, i: int)
  {
    1 <= i < |trigger| && trigger[i - 1].signal == 0.0 && trigger[i].signal == 1.0
  }

  /** Indices of the rows selected by the mask, in input order. */
  function EdgeIndices(trigger: seq<TriggerSample>): (idx: seq<nat>)
    ensures forall k :: 0 <= k < |idx| ==> IsRisingEdge(trigger, idx[k])
    ensures forall i :: IsRisingEdge(trigger, i) ==> i in idx
    ensures forall j, k :: 0 <= j < k < |idx| ==> idx[j] + 2 <= idx[k]
  {
    if |trigger| == 0 then []
    else
      var last := |trigger| - 1;
      var prefix := trigger[..last];
      var prev := EdgeIndices(prefix);
      assert forall i :: IsRisingEdge(prefix, i) <==> IsRisingEdge(trigger, i) && i < last;
      if IsRisingEdge(trigger, last) then prev + [last] else prev
  }

  /** The timestamps of the rising edges (`find_rising_edges` without the file read). */
  function FindRisingEdges(trigger: seq<TriggerSample>): (edges: seq<real>)
    ensures |edges| == |EdgeIndices(trigger)|
    ensures forall k :: 0 <= k < |edges| ==> edges[k] == trigger[EdgeIndices(trigger)[k]].timestamp
    ensures |edges| <= |trigger| / 2
    ensures |trigger| < 2 ==> edges == []
    ensures edges == [] <==> forall i :: !IsRisingEdge(trigger, i)
  {
    var idx := EdgeIndices(trigger);
    SpacedCountBound(idx, |trigger|);
    assert idx != [] ==> IsRisingEdge(trigger, idx[0]);
    seq(|idx|, k requires 0 <= k < |idx| => trigger[idx[k]].timestamp)
  }

  /** At most `n / 2` positive indices below `n` can be pairwise two apart. */
  lemma {:induction false} SpacedCountBound(idx: seq<nat>, n: nat)
    requires forall k :: 0 <= k < |idx| ==> 1 <= idx[k] < n
    requires forall j, k :: 0 <= j < k < |idx| ==> idx[j] + 2 <= idx[k]
    ensures |idx| <= n / 2
  {
    if idx != [] {
      var m := idx[|idx| - 1];
      var prefix := idx[..|idx| - 1];
      assert forall k :: 0 <= k < |prefix| ==> prefix[k] + 2 <= m;
      SpacedCountBound(prefix, m - 1);
    }
  }

  /** Row `i`'s timestamp is reported exactly when row `i` passes the mask; since
      a reported row is found by its position, a timestamp column without
      repeats lets this read as membership of the timestamp itself. */
  lemma RisingEdgeReported(trigger: seq<TriggerSample>, i: int)
    requires 0 <= i < |trigger|
    requires forall j, k :: 0 <= j < k < |trigger| ==> trigger[j].timestamp < trigger[k].timestamp
    ensures trigger[i].timestamp in FindRisingEdges(trigger) <==> IsRisingEdge(trigger, i)
  {
    var idx, edges := EdgeIndices(trigger), FindRisingEdges(trigger);
    if IsRisingEdge(trigger, i) {
      var k :| 0 <= k < |idx| && idx[k] == i;
      assert edges[k] == trigger[i].timestamp;
    }
    if trigger[i].timestamp in edges {
      var k :| 0 <= k < |edges| && edges[k] == trigger[i].timestamp;
      assert trigger[idx[k]].timestamp == trigger[i].timestamp;
      assert idx[k] == i;
    }
  }

  /** Strictly increasing timestamps give strictly increasing edge timestamps. */
  lemma EdgesStrictlyIncreasing(trigger: seq<TriggerSample>)
    requires forall j, k :: 0 <= j < k < |trigger| ==> trigger[j].timestamp < trigger[k].timestamp
    ensures var edges := FindRisingEdges(trigger);
      forall j, k :: 0 <= j < k < |edges| ==> edges[j] < edges[k]
  {
    var idx, edges := EdgeIndices(trigger), FindRisingEdges(trigger);
    forall j, k | 0 <= j < k < |edges| ensures edges[j] < edges[k] {
      assert idx[j] < idx[k];
    }
  }

  /** A signal that holds one level throughout has no rising edge. */
  lemma ConstantSignalHasNoEdges(trigger: seq<TriggerSample>, level: real)
    requires forall i :: 0 <= i < |trigger| ==> trigger[i].signal == level
    ensures FindRisingEdges(trigger) == []
  {
    forall i ensures !IsRisingEdge(trigger, i) {
      if 1 <= i < |trigger| {
        assert trigger[i - 1].signal == trigger[i].signal;
      }
    }
  }
}
