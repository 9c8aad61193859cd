/** The USB connection as the transport sees it: readiness, a connection generation, a queue. */
module UsbBus {
  import opened Bytes
  import opened Wire
  import opened UsbQueue

  /** Generations are unbounded here; the firmware's counter has 32 bits. */
  datatype Bus = Bus(mounted: bool, ready: bool, generation: nat, queue: seq<Item>)

  datatype BusEvent = Attached | Detached | Suspended | Resumed | ReportIn(report: Report)

  const UNPLUGGED: Bus := Bus(false, false, 0, [])

  function Occur(b: Bus, e: BusEvent): Bus {
    match e
    case Attached => Bus(true, true, b.generation + 1, [])
    case Detached => Bus(false, false, b.generation + 1, [])
    case Suspended => Bus(b.mounted, false, b.generation + 1, [])
    case Resumed => b.(ready := b.mounted)
    case ReportIn(r) => if b.ready then b.(queue := Pushed(b.queue, Item(r, b.generation)).0) else b
  }

  function After(b: Bus, es: seq<BusEvent>): Bus
    decreases |es|
  {
    if es == [] then b else After(Occur(b, es[0]), es[1..])
  }

  /** Reports wait only on a ready connection, and all of them arrived on the current one. */
  predicate BusInv(b: Bus) {
    && (b.ready ==> b.mounted)
    && (b.queue != [] ==> b.ready)
    && |b.queue| <= DEPTH
    && forall i :: 0 <= i < |b.queue| ==> b.queue[i].generation == b.generation
  }

  /** A later bus: a connection that was ready stays ready until its generation ends. */
  predicate Later(b: Bus, b': Bus) {
    && b.generation <= b'.generation
    && (b.generation == b'.generation && b.ready ==> b'.ready)
  }

  lemma {:induction false} AfterIsLater(b: Bus, es: seq<BusEvent>)
    requires BusInv(b)
    ensures BusInv(After(b, es)) && Later(b, After(b, es))
    decreases |es|
  {
    if es != [] {
      AfterIsLater(Occur(b, es[0]), es[1..]);
    }
  }

  predicate NewConnection(e: BusEvent) {
    e.Attached? || e.Detached? || e.Suspended?
  }

  /** How many of the events start a generation. */
  function Connections(es: seq<BusEvent>): nat
    decreases |es|
  {
    if es == [] then 0 else (if NewConnection(es[0]) then 1 else 0) + Connections(es[1..])
  }

  /** The counter as the firmware keeps it. */
  function Counter(b: Bus): u32 {
    b.generation % U32_SPAN
  }

  /** The generation counts attaches, detaches and suspends, so the firmware's counter does modulo 2^32. */
  lemma {:induction false} GenerationCountsUp(b: Bus, es: seq<BusEvent>)
    ensures After(b, es).generation == b.generation + Connections(es)
    decreases |es|
  {
    if es != [] {
      GenerationCountsUp(Occur(b, es[0]), es[1..]);
    }
  }

  /**
    The firmware's counter shows a change of connection exactly when the number of changes is no multiple of
    2^32; short of that, equal counters mean the same connection.
  */
  lemma CounterShowsChange(b: Bus, es: seq<BusEvent>)
    ensures Counter(After(b, es)) == Counter(b) <==> Connections(es) % U32_SPAN == 0
    ensures Connections(es) < U32_SPAN ==>
              (Counter(After(b, es)) == Counter(b) <==> After(b, es).generation == b.generation)
  {
    GenerationCountsUp(b, es);
    SumModulo(b.generation, Connections(es));
  }

  lemma SumModulo(a: nat, n: nat)
    ensures (a + n) % U32_SPAN == a % U32_SPAN <==> n % U32_SPAN == 0
  {
    var q, r := a / U32_SPAN, a % U32_SPAN;
    var k, l := n / U32_SPAN, n % U32_SPAN;
    assert a + n == (q + k) * U32_SPAN + (r + l);
    if r + l < U32_SPAN {
      assert (a + n) % U32_SPAN == r + l;
    } else {
      assert a + n == (q + k + 1) * U32_SPAN + (r + l - U32_SPAN);
      assert (a + n) % U32_SPAN == r + l - U32_SPAN;
    }
  }

  /** The generation moves exactly when the bus attaches, detaches or suspends. */
  lemma {:induction false} GenerationMoves(b: Bus, es: seq<BusEvent>)
    ensures b.generation <= After(b, es).generation
    ensures After(b, es).generation == b.generation <==> forall i :: 0 <= i < |es| ==> !NewConnection(es[i])
    decreases |es|
  {
    if es != [] {
      GenerationMoves(Occur(b, es[0]), es[1..]);
      assert forall i :: 0 < i < |es| ==> es[i] == es[1..][i - 1];
      assert forall i :: 0 <= i < |es| - 1 ==> es[1..][i] == es[i + 1];
    }
  }

  datatype Received = Taken(item: Item) | Stale | Disconnected | TimedOut

  /**
    Waiting for one report. `waits` are the events that arrive each time the caller blocks, and
    `between` those between removing a report and confirming that its connection still stands.
  */
  function Receive(b: Bus, waits: seq<seq<BusEvent>>, between: seq<BusEvent>): (Bus, Received)
    decreases |waits|
  {
    if b.queue != [] then
      var b' := After(b.(queue := b.queue[1..]), between);
      (b', if b'.ready && b'.generation == b.queue[0].generation then Taken(b.queue[0]) else Stale)
    else if !b.ready then (b, Disconnected)
    else if waits == [] then (b, TimedOut)
    else Receive(After(b, waits[0]), waits[1..], between)
  }

  /** A report is received only on the connection it arrived on, while that one is ready. */
  lemma {:induction false} ReceivedIsCurrent(b: Bus, waits: seq<seq<BusEvent>>, between: seq<BusEvent>)
    requires BusInv(b)
    ensures var (b', r) := Receive(b, waits, between);
            && BusInv(b') && Later(b, b')
            && (r.Taken? ==> b'.ready && r.item.generation == b'.generation)
            && (r.Stale? ==> exists i :: 0 <= i < |between| && NewConnection(between[i]))
    decreases |waits|
  {
    if b.queue != [] {
      var popped := b.(queue := b.queue[1..]);
      AfterIsLater(popped, between);
      GenerationMoves(popped, between);
    } else if b.ready && waits != [] {
      AfterIsLater(b, waits[0]);
      ReceivedIsCurrent(After(b, waits[0]), waits[1..], between);
    }
  }

  class Usb {
    const ring: Ring
    var mounted: bool
    var ready: bool
    var generation: nat

    ghost function Repr(): set<object> {
      {this, ring, ring.items}
    }

    ghost predicate Valid()
      reads Repr()
    {
      ring.Valid() && BusInv(Bus(mounted, ready, generation, ring.Contents()))
    }

    ghost function View(): Bus
      reads Repr()
      requires Valid()
    {
      Bus(mounted, ready, generation, ring.Contents())
    }

    constructor ()
      ensures Valid() && View() == UNPLUGGED && fresh(Repr())
    {
      ring := new Ring();
      mounted, ready, generation := false, false, 0;
    }

    /** A bus event. Every configured connection, and every loss of one, gets a new generation. */
    method Event(e: BusEvent)
      requires Valid() && !e.ReportIn?
      modifies Repr()
      ensures Valid() && View() == Occur(old(View()), e)
    {
      match e
      case Attached =>
        ring.Clear();
        mounted, ready, generation := true, true, generation + 1;
      case Detached =>
        mounted, ready, generation := false, false, generation + 1;
        ring.Clear();
      case Suspended =>
        ready, generation := false, generation + 1;
        ring.Clear();
      case Resumed =>
        ready := mounted;
    }

    /** A report from the host; anything but a 64-byte output report 0 is ignored. */
    method SetReport(instance: nat, reportId: nat, output: bool, buffer: seq<byte>)
      requires Valid()
      modifies Repr()
      ensures Valid()
      ensures View() == if instance == 0 && reportId == 0 && output && |buffer| == REPORT_BYTES
                        then Occur(old(View()), ReportIn(buffer)) else old(View())
    {
      if instance != 0 || reportId != 0 || !output || |buffer| != REPORT_BYTES {
        return;
      }
      if ready {
        var queued := ring.Push(buffer, generation);
      }
    }

    method DropPending()
      requires Valid()
      modifies Repr()
      ensures Valid() && View() == old(View()).(queue := [])
    {
      ring.Clear();
    }

    method Events(es: seq<BusEvent>)
      requires Valid()
      modifies Repr()
      ensures Valid() && View() == After(old(View()), es)
    {
      ghost var before := View();
      for i := 0 to |es|
        invariant Valid()
        invariant After(before, es) == After(View(), es[i..])
      {
        match es[i]
        case ReportIn(r) => SetReport(0, 0, true, r);
        case e => Event(e);
        assert es[i..][1..] == es[i + 1..];
      }
    }

    /** Takes the oldest report, blocking while the connection is ready and silent. */
    method Take(waits: seq<seq<BusEvent>>, between: seq<BusEvent>) returns (r: Received)
      requires Valid()
      modifies Repr()
      ensures Valid() && (View(), r) == Receive(old(View()), waits, between)
    {
      ghost var start := View();
      var i := 0;
      while true
        invariant i <= |waits| && Valid()
        invariant Receive(start, waits, between) == Receive(View(), waits[i..], between)
        decreases |waits| - i
      {
        ghost var before := View();
        var popped := ring.Pop();
        if popped.Some? {
          var item := popped.value;
          assert View() == before.(queue := before.queue[1..]);
          if !ready || item.generation != generation {
            // a queued report is never stale at the moment it is removed
            assert false;
          }
          Events(between);
          return if !ready || generation != item.generation then Stale else Taken(item);
        }
        if !ready {
          return Disconnected;
        }
        if i == |waits| {
          return TimedOut;
        }
        Events(waits[i]);
        assert waits[i..][1..] == waits[i + 1..];
        i := i + 1;
      }
    }
  }
}
