/** The ring buffer of received reports. */
module UsbQueue {
  import opened Bytes
  import opened Wire

  const DEPTH: int := 8

  datatype Item = Item(report: Report, generation: nat)

  /** The queue as a first-in first-out list: a full one rejects the newest report. */
  function Pushed(q: seq<Item>, item: Item): (seq<Item>, bool) {
    if |q| >= DEPTH then (q, false) else (q + [item], true)
  }

  class Ring {
    const items: array<Item>
    var head: nat
    var count: nat

    ghost predicate Valid()
      reads this
    {
      items.Length == DEPTH && head < DEPTH && count <= DEPTH
    }

    /** Oldest report first. */
    ghost function Contents(): (q: seq<Item>)
      reads this, items
      requires Valid()
      ensures |q| == count
    {
      seq(count, i requires 0 <= i < count reads this, items requires Valid() => items[(head + i) % DEPTH])
    }

    constructor ()
      ensures Valid() && Contents() == [] && fresh(items)
    {
      items := new Item[DEPTH](_ => Item(Zeros(REPORT_BYTES), 0));
      head, count := 0, 0;
    }

    method Push(report: Report, generation: nat) returns (queued: bool)
      requires Valid()
      modifies this, items
      ensures Valid() && (Contents(), queued) == Pushed(old(Contents()), Item(report, generation))
    {
      if count >= DEPTH {
        return false;
      }
      ghost var before := Contents();
      items[(head + count) % DEPTH] := Item(report, generation);
      count := count + 1;
      queued := true;
      assert Contents()[..|before|] == before;
      assert Contents() == before + [Item(report, generation)];
    }

    method Pop() returns (item: Option<Item>)
      requires Valid()
      modifies this
      ensures Valid()
      ensures old(Contents()) == [] ==> item == None && Contents() == []
      ensures old(Contents()) != [] ==> item == Some(old(Contents())[0]) && Contents() == old(Contents())[1..]
    {
      if count == 0 {
        return None;
      }
      item := Some(items[head]);
      head := (head + 1) % DEPTH;
      count := count - 1;
    }

    /** Empties the queue and clears the old bytes. */
    method Clear()
      requires Valid()
      modifies this, items
      ensures Valid() && Contents() == []
      ensures forall i :: 0 <= i < DEPTH ==> items[i] == Item(Zeros(REPORT_BYTES), 0)
    {
      for i := 0 to DEPTH
        invariant Valid()
        invariant forall j :: 0 <= j < i ==> items[j] == Item(Zeros(REPORT_BYTES), 0)
      {
        items[i] := Item(Zeros(REPORT_BYTES), 0);
      }
      head, count := 0, 0;
    }
  }
}
