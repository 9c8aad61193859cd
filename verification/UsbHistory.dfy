/** What the bus is after any events, told by the events themselves. */
module UsbHistory {
  import opened Bytes
  import opened Wire
  import opened UsbQueue
  import opened UsbBus

  lemma {:induction false} AfterBoth(b: Bus, es: seq<BusEvent>, more: seq<BusEvent>)
    ensures After(b, es + more) == After(After(b, es), more)
    decreases |es|
  {
    if es == [] {
      assert es + more == more;
    } else {
      AfterBoth(Occur(b, es[0]), es[1..], more);
      assert (es + more)[1..] == es[1..] + more;
    }
  }

  lemma AfterLast(b: Bus, es: seq<BusEvent>)
    requires es != []
    ensures After(b, es) == Occur(After(b, es[..|es| - 1]), es[|es| - 1])
  {
    var n := |es| - 1;
    assert es == es[..n] + [es[n]] && [es[n]][1..] == [];
    AfterBoth(b, es[..n], [es[n]]);
    assert After(After(b, es[..n]), [es[n]]) == After(Occur(After(b, es[..n]), es[n]), []);
  }

  /** Attached at `i`, and not detached since. */
  predicate AttachedSince(es: seq<BusEvent>, i: nat) {
    i < |es| && es[i].Attached? && forall j :: i < j < |es| ==> !es[j].Detached?
  }

  predicate NeverDetached(es: seq<BusEvent>) {
    forall j :: 0 <= j < |es| ==> !es[j].Detached?
  }

  lemma MountedStep(es: seq<BusEvent>, i: nat)
    requires es != []
    ensures var n := |es| - 1;
            && (AttachedSince(es, i) <==> if i == n then es[n].Attached? else AttachedSince(es[..n], i) && !es[n].Detached?)
            && (NeverDetached(es) <==> NeverDetached(es[..n]) && !es[n].Detached?)
  {
    var n := |es| - 1;
    assert forall j :: 0 <= j < n ==> es[..n][j] == es[j];
  }

  /** The bus is mounted if and only if it was attached, and not detached since. */
  lemma {:induction false} MountedExactlyWhen(b: Bus, es: seq<BusEvent>)
    ensures After(b, es).mounted <==> (exists i: nat :: AttachedSince(es, i)) || (b.mounted && NeverDetached(es))
    decreases |es|
  {
    if es != [] {
      var n := |es| - 1;
      AfterLast(b, es);
      MountedExactlyWhen(b, es[..n]);
      MountedStep(es, n);
      forall i: nat
        ensures AttachedSince(es, i) <==> if i == n then es[n].Attached? else AttachedSince(es[..n], i) && !es[n].Detached?
      {
        MountedStep(es, i);
      }
      hide AttachedSince, NeverDetached, After;
      if i: nat :| AttachedSince(es[..n], i) && i != n {
        assert AttachedSince(es, i) <==> !es[n].Detached?;
      }
      assert AttachedSince(es[..n], n) ==> false by { NotBeyond(es[..n], n); }
    }
  }

  lemma NotBeyond(es: seq<BusEvent>, i: nat)
    requires i >= |es|
    ensures !AttachedSince(es, i) && !ReadySince(es, i)
  {
  }

  /** Attached or resumed at `i`, and nothing but reports since. */
  predicate ReadySince(es: seq<BusEvent>, i: nat) {
    i < |es| && (es[i].Attached? || es[i].Resumed?) && forall j :: i < j < |es| ==> es[j].ReportIn?
  }

  predicate OnlyReports(es: seq<BusEvent>) {
    forall j :: 0 <= j < |es| ==> es[j].ReportIn?
  }

  lemma ReadyStep(es: seq<BusEvent>, i: nat)
    requires es != []
    ensures var n := |es| - 1;
            && (ReadySince(es, i) <==>
                  if i == n then es[n].Attached? || es[n].Resumed? else ReadySince(es[..n], i) && es[n].ReportIn?)
            && (OnlyReports(es) <==> OnlyReports(es[..n]) && es[n].ReportIn?)
  {
    var n := |es| - 1;
    assert forall j :: 0 <= j < n ==> es[..n][j] == es[j];
  }

  /** It is ready if and only if it is mounted and nothing but reports came after it was attached or resumed. */
  lemma {:induction false} ReadyExactlyWhen(b: Bus, es: seq<BusEvent>)
    requires BusInv(b)
    ensures After(b, es).ready <==>
              After(b, es).mounted && ((exists i: nat :: ReadySince(es, i)) || (b.ready && OnlyReports(es)))
    decreases |es|
  {
    if es != [] {
      var n := |es| - 1;
      AfterLast(b, es);
      ReadyExactlyWhen(b, es[..n]);
      AfterIsLater(b, es[..n]);
      ReadyStep(es, n);
      forall i: nat
        ensures ReadySince(es, i) <==>
                  if i == n then es[n].Attached? || es[n].Resumed? else ReadySince(es[..n], i) && es[n].ReportIn?
      {
        ReadyStep(es, i);
      }
      hide ReadySince, OnlyReports, After;
      if i: nat :| ReadySince(es[..n], i) && i != n {
        assert ReadySince(es, i) <==> es[n].ReportIn?;
      }
      assert ReadySince(es[..n], n) ==> false by { NotBeyond(es[..n], n); }
    }
  }

  // ---- which reports wait, and which one is received

  /** The reports among the events, in order, as items of one connection. */
  function Arrivals(es: seq<BusEvent>, generation: nat): seq<Item> {
    if es == [] then []
    else
      var n := |es| - 1;
      Arrivals(es[..n], generation) + if es[n].ReportIn? then [Item(es[n].report, generation)] else []
  }

  /** While a connection lasts its reports queue up in order, and those that find eight waiting are lost. */
  lemma {:induction false} ReportsQueueUp(b: Bus, es: seq<BusEvent>)
    requires BusInv(b) && b.ready && forall i :: 0 <= i < |es| ==> !NewConnection(es[i])
    ensures var all := b.queue + Arrivals(es, b.generation);
            After(b, es) == b.(queue := all[..Min(|all|, 8)])
    decreases |es|
  {
    if es == [] {
      assert b.queue[..|b.queue|] == b.queue;
    } else {
      var n := |es| - 1;
      AfterLast(b, es);
      ReportsQueueUp(b, es[..n]);
      var before := b.queue + Arrivals(es[..n], b.generation);
      var all := b.queue + Arrivals(es, b.generation);
      if es[n].ReportIn? {
        assert all == before + [Item(es[n].report, b.generation)];
      } else {
        assert all == before;
      }
    }
  }

  /** A connection that begins finds no report of another, and its generation is the next one. */
  lemma ConnectionStartsEmpty(b: Bus, es: seq<BusEvent>, more: seq<BusEvent>)
    requires BusInv(b) && forall i :: 0 <= i < |more| ==> !NewConnection(more[i])
    ensures var b' := After(b, es + [Attached] + more);
            var all := Arrivals(more, b'.generation);
            b' == Bus(true, true, After(b, es).generation + 1, all[..Min(|all|, 8)])
  {
    var start := After(b, es);
    AfterIsLater(b, es);
    AfterBoth(b, es + [Attached], more);
    AfterLast(b, es + [Attached]);
    assert (es + [Attached])[..|es|] == es;
    ReportsQueueUp(Occur(start, Attached), more);
    var all := Arrivals(more, start.generation + 1);
    assert [] + all == all;
  }

  /** The bus at the n-th time a caller looks at it. */
  function Looked(b: Bus, waits: seq<seq<BusEvent>>, n: nat): Bus
    requires n <= |waits|
  {
    if n == 0 then b else After(Looked(b, waits, n - 1), waits[n - 1])
  }

  lemma {:induction false} LookedRest(b: Bus, waits: seq<seq<BusEvent>>, n: nat)
    requires 0 < n <= |waits|
    ensures Looked(b, waits, n) == Looked(After(b, waits[0]), waits[1..], n - 1)
  {
    if n > 1 {
      LookedRest(b, waits, n - 1);
    }
  }

  /** Up to here a caller found the connection ready and nothing to read. */
  predicate Waited(b: Bus, waits: seq<seq<BusEvent>>, n: nat) {
    n <= |waits| && forall m: nat :: m < n ==> Looked(b, waits, m).ready && Looked(b, waits, m).queue == []
  }

  /**
    A caller that waits gets the oldest report at the first look that finds one, if no connection begins or ends
    until it is confirmed; it is sent away at the first look that finds the connection gone, and gives up
    when all looks are spent.
  */
  lemma {:induction false} ReceivedExactly(b: Bus, waits: seq<seq<BusEvent>>, between: seq<BusEvent>, n: nat)
    requires BusInv(b) && Waited(b, waits, n)
    ensures var here := Looked(b, waits, n);
            var r := Receive(b, waits, between).1;
            && (here.queue != [] && (forall i :: 0 <= i < |between| ==> !NewConnection(between[i])) ==>
                  r == Taken(here.queue[0]))
            && (here.queue != [] && (exists i :: 0 <= i < |between| && NewConnection(between[i])) ==> r == Stale)
            && (here.queue == [] && !here.ready ==> r == Disconnected)
            && (here.queue == [] && here.ready && n == |waits| ==> r == TimedOut)
    decreases n
  {
    if n > 0 {
      assert Looked(b, waits, 0).ready && Looked(b, waits, 0).queue == [];
      AfterIsLater(b, waits[0]);
      LookedRest(b, waits, n);
      forall m: nat | m < n - 1
        ensures Looked(After(b, waits[0]), waits[1..], m) == Looked(b, waits, m + 1)
      {
        LookedRest(b, waits, m + 1);
      }
      ReceivedExactly(After(b, waits[0]), waits[1..], between, n - 1);
    } else if b.queue != [] {
      var popped := b.(queue := b.queue[1..]);
      AfterIsLater(popped, between);
      GenerationMoves(popped, between);
    }
  }
}
