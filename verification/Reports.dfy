/** The queue of input reports of the libusb backend of HIDAPI: a linked list that `read_callback` appends to
    and `return_data` takes from. */
module Reports {
  import opened Images

  type Report = seq<byte>

  const QUEUE_LIMIT := 30

  /** The queue after `read_callback` has attached a report: when more than 31 were queued already, the oldest
      one goes. */
  function Attached(queue: seq<Report>, r: Report): seq<Report> {
    if |queue| - 1 > QUEUE_LIMIT then queue[1..] + [r] else queue + [r]
  }

  /** The queue never grows beyond 32 reports, loses nothing but its oldest report, and only when it is full. */
  lemma AttachedBounded(queue: seq<Report>, r: Report)
    requires |queue| <= QUEUE_LIMIT + 2
    ensures |Attached(queue, r)| <= QUEUE_LIMIT + 2
    ensures Attached(queue, r) == (queue + [r])[|queue| + 1 - |Attached(queue, r)|..]
    ensures |Attached(queue, r)| == |queue| + 1 || |queue| == QUEUE_LIMIT + 2
  {
  }

  function First(r: Report, length: nat): Report {
    if length < |r| then r[..length] else r
  }

  class InputReport {
    const data: Report
    var next: InputReport?

    constructor (data: Report)
      ensures this.data == data && next == null
    {
      this.data, next := data, null;
    }
  }

  ghost function ReportAt(nodes: seq<InputReport>, i: int): InputReport? {
    if 0 <= i < |nodes| then nodes[i] else null
  }

  function DataOf(nodes: seq<InputReport>): (r: seq<Report>)
    ensures |r| == |nodes| && forall i :: 0 <= i < |nodes| ==> r[i] == nodes[i].data
  {
    seq(|nodes|, i requires 0 <= i < |nodes| => nodes[i].data)
  }

  /** `memcpy`. */
  method CopyBytes(data: array<byte>, from: Report, len: nat)
    requires len <= data.Length && len <= |from|
    modifies data
    ensures data[..len] == from[..len] && data[len..] == old(data[..])[len..]
  {
    var i := 0;
    while i < len
      invariant 0 <= i <= len
      invariant data[..i] == from[..i] && data[i..] == old(data[..])[i..]
    {
      data[i] := from[i];
      i := i + 1;
    }
  }

  class ReportList {
    var inputReports: InputReport?
    ghost var nodes: seq<InputReport>

    ghost predicate Valid()
      reads this, nodes`next
    {
      && (forall i, j :: 0 <= i < j < |nodes| ==> nodes[i] != nodes[j])
      && inputReports == ReportAt(nodes, 0)
      && forall i :: 0 <= i < |nodes| ==> nodes[i].next == ReportAt(nodes, i + 1)
    }

    ghost function Queue(): seq<Report>
      reads this
    {
      DataOf(nodes)
    }

    constructor ()
      ensures Valid() && Queue() == []
    {
      inputReports, nodes := null, [];
    }

    /** `return_data`: copies the first report into the buffer as far as it fits, and unlinks it. */
    method ReturnData(data: array?<byte>, length: nat) returns (len: nat)
      requires Valid() && inputReports != null
      requires if data == null then length == 0 else length <= data.Length
      modifies this, if data == null then {} else {data}
      ensures Valid() && old(Queue()) != [] && Queue() == old(Queue())[1..]
      ensures len == |First(old(Queue())[0], length)|
      ensures data != null ==> data[..len] == First(old(Queue())[0], length) && data[len..] == old(data[..])[len..]
      ensures nodes == old(nodes)[1..]
    {
      var rpt := inputReports;
      len := if length < |rpt.data| then length else |rpt.data|;
      if len > 0 {
        CopyBytes(data, rpt.data, len);
      }
      inputReports := rpt.next;
      nodes := nodes[1..];
    }

    /** Finds the end of the list, counting, and attaches the report there. */
    method AttachLast(rpt: InputReport) returns (numQueued: nat)
      requires Valid() && rpt !in nodes && rpt.next == null && inputReports != null
      modifies this`nodes, nodes`next
      ensures Valid() && numQueued == |old(nodes)| - 1 && nodes == old(nodes) + [rpt]
    {
      var cur := inputReports;
      numQueued := 0;
      while cur.next != null
        invariant 0 <= numQueued < |nodes| && cur == nodes[numQueued]
        decreases |nodes| - numQueued
      {
        cur := cur.next;
        numQueued := numQueued + 1;
      }
      cur.next := rpt;
      ghost var was := nodes;
      nodes := nodes + [rpt];
      forall i | 0 <= i < |nodes| ensures nodes[i].next == ReportAt(nodes, i + 1) {
        assert i < |was| - 1 ==> was[i].next == ReportAt(was, i + 1);
      }
    }

    /** The part of `read_callback` under the mutex. The condition is to be signalled exactly when the queue
        was empty. */
    method Attach(rpt: InputReport) returns (signal: bool)
      requires Valid() && rpt !in nodes && rpt.next == null
      modifies this, nodes`next
      ensures Valid() && Queue() == Attached(old(Queue()), rpt.data)
      ensures signal == (old(Queue()) == [])
    {
      ghost var queue := Queue();
      if inputReports == null {
        inputReports := rpt;
        nodes := [rpt];
        return true;
      }
      var numQueued := AttachLast(rpt);
      assert Queue() == queue + [rpt.data];
      signal := false;
      if numQueued > QUEUE_LIMIT {
        var _ := ReturnData(null, 0);
      }
    }

    /** The clearing loop of `hid_close`. */
    method Clear()
      requires Valid()
      modifies this
      ensures Valid() && Queue() == []
    {
      while inputReports != null
        invariant Valid()
        decreases |nodes|
      {
        var _ := ReturnData(null, 0);
      }
    }
  }
}
