// Shadow doorbells (section 7.13 of NVM Express 1.3): the driver stores a doorbell
// in memory and writes the device's register only when the device asked for it.
module Doorbell {
  import opened Arith
  import opened Options

  const U16: nat := 0x1_0000

  // nvme_dbbuf_need_event, in 16-bit arithmetic
  predicate NeedEvent(eventIdx: nat, newIdx: nat, oldIdx: nat) {
    (newIdx - eventIdx - 1) % U16 < (newIdx - oldIdx) % U16
  }

  // Whether ei is met on the way from oldIdx up to, but not including, new.
  predicate OnTheWay(ei: nat, newIdx: nat, oldIdx: nat) {
    if oldIdx <= newIdx then oldIdx <= ei < newIdx else oldIdx <= ei || ei < newIdx
  }

  // The test wraps at 2^16 whatever the ring's size, and still decides membership
  // for the indices of any ring.
  lemma NeedEventExact(ei: nat, newIdx: nat, oldIdx: nat)
    requires ei < U16 && newIdx < U16 && oldIdx < U16
    ensures NeedEvent(ei, newIdx, oldIdx) <==> OnTheWay(ei, newIdx, oldIdx)
  {
  }

  lemma Ahead(a: nat, c: nat, size: nat)
    requires a <= c < a + size
    ensures Slot(c, size) == Slot(a, size) + (c - a) - if Slot(a, size) + (c - a) < size then 0 else size
  {
    var q, r := a / size, a % size;
    if r + (c - a) < size {
      DivUnique(c, size, q, r + (c - a));
    } else {
      DivUnique(c, size, q + 1, r + (c - a) - size);
    }
  }

  // In terms of the counts behind the indices: less than a round lies between a
  // and b, and the index is that of some count in between.
  lemma OnTheWayCounts(ei: nat, a: nat, b: nat, size: nat)
    requires size > 0 && ei < size && a <= b < a + size
    ensures OnTheWay(ei, Slot(b, size), Slot(a, size)) <==> exists c | a <= c < b :: Slot(c, size) == ei
  {
    hide Slot;
    var r := Slot(a, size);
    Ahead(a, b, size);
    if OnTheWay(ei, Slot(b, size), r) {
      var c := if ei >= r then a + (ei - r) else a + (ei + size - r);
      Ahead(a, c, size);
      assert a <= c < b && Slot(c, size) == ei;
    }
    forall c | a <= c < b && Slot(c, size) == ei
      ensures OnTheWay(ei, Slot(b, size), r)
    {
      Ahead(a, c, size);
    }
  }

  lemma NeedEventCounts(ei: nat, a: nat, b: nat, size: nat)
    requires 0 < size <= U16 && ei < size && a <= b < a + size
    ensures NeedEvent(ei, Slot(b, size), Slot(a, size)) <==> exists c | a <= c < b :: Slot(c, size) == ei
  {
    OnTheWayCounts(ei, a, b, size);
    NeedEventExact(ei, Slot(b, size), Slot(a, size));
  }

  // ---- The protocol ----

  // Between its store and its reading of the event index the driver is in Stored,
  // with the doorbell it replaced; in Due it is about to write the register.
  datatype Host = Idle | Stored(replaced: nat) | Due

  datatype Device = Working | EventStored | Asleep

  // Counts of all entries ever: db is the one whose index the shadow doorbell
  // holds, event the one whose index the event index holds, seen what the device
  // has taken up. mmio is a register write that has not reached the device yet.
  datatype State = State(size: nat, db: nat, event: nat, seen: nat, host: Host, device: Device, mmio: bool)

  datatype Step =
    | HostStores(newDb: nat)
    | HostReadsEvent
    | HostWritesRegister
    | DeviceTakes(upTo: nat)
    | DeviceStoresEvent
    | DeviceRereads
    | RegisterWriteArrives

  predicate Enabled(s: State, t: Step) {
    match t
    // No more entries than the ring holds are on their way at any time.
    case HostStores(n) => s.host.Idle? && s.db < n < s.seen + s.size
    case HostReadsEvent => s.host.Stored?
    case HostWritesRegister => s.host.Due?
    case DeviceTakes(n) => s.device.Working? && s.seen < n <= s.db
    case DeviceStoresEvent => s.device.Working?
    case DeviceRereads => s.device.EventStored?
    case RegisterWriteArrives => s.mmio
  }

  function Next(s: State, t: Step): State
    requires s.size > 0 && Enabled(s, t)
  {
    match t
    case HostStores(n) => s.(db := n, host := Stored(s.db))
    case HostReadsEvent =>
      s.(host := if NeedEvent(Slot(s.event, s.size), Slot(s.db, s.size), Slot(s.host.replaced, s.size)) then Due else Idle)
    case HostWritesRegister => s.(host := Idle, mmio := true)
    case DeviceTakes(n) => s.(seen := n)
    case DeviceStoresEvent => s.(event := s.seen, device := EventStored)
    // The device can compare indices only.
    case DeviceRereads => s.(device := if Slot(s.db, s.size) != Slot(s.seen, s.size) then Working else Asleep)
    case RegisterWriteArrives => s.(mmio := false, device := if s.device.Asleep? then Working else s.device)
  }

  function Init(size: nat): State {
    State(size, 0, 0, 0, Idle, Working, false)
  }

  ghost predicate Inv(s: State) {
    && 0 < s.size <= U16
    && s.seen <= s.db < s.seen + s.size
    && (s.host.Stored? ==> s.host.replaced < s.db < s.host.replaced + s.size)
    && (s.device.EventStored? || s.device.Asleep? ==> s.event == s.seen)
    && (s.device.Asleep? && s.seen < s.db ==> s.mmio || s.host.Due? || s.host == Stored(s.seen))
  }

  lemma NextInv(s: State, t: Step)
    requires Inv(s) && Enabled(s, t)
    ensures Inv(Next(s, t))
  {
    match t
    case HostReadsEvent =>
      if s.device.Asleep? && s.seen < s.db && s.host == Stored(s.seen) {
        NeedEventCounts(Slot(s.event, s.size), s.seen, s.db, s.size);
        assert Slot(s.seen, s.size) == Slot(s.event, s.size);
      }
    case DeviceRereads =>
      if s.seen < s.db {
        ModApart(s.seen, s.db, s.size);
      }
    case _ =>
  }

  ghost predicate Reaches(s: State, run: seq<Step>, r: State)
    decreases |run|
  {
    if run == [] then r == s
    else s.size > 0 && Enabled(s, run[0]) && Reaches(Next(s, run[0]), run[1..], r)
  }

  lemma {:induction false} RunInv(s: State, run: seq<Step>, r: State)
    requires Inv(s) && Reaches(s, run, r)
    ensures Inv(r) && r.size == s.size
    decreases |run|
  {
    if run != [] {
      NextInv(s, run[0]);
      RunInv(Next(s, run[0]), run[1..], r);
    }
  }

  // In no interleaving is the device asleep on entries it has not seen while no
  // register write is made or due: the driver still has to read the event index,
  // and will then find that the device asked, or is about to write, or has written.
  lemma NoLostDoorbell(size: nat, run: seq<Step>, r: State)
    requires 0 < size <= U16 && Reaches(Init(size), run, r)
    ensures r.device.Asleep? && r.seen < r.db ==>
      r.mmio || r.host.Due? || (r.size > 0 && r.host.Stored? && Next(r, HostReadsEvent).host.Due?)
    ensures r.device.Asleep? && r.host.Idle? && !r.mmio ==> r.seen == r.db
  {
    RunInv(Init(size), run, r);
    if r.device.Asleep? && r.seen < r.db && r.host == Stored(r.seen) {
      NeedEventCounts(Slot(r.event, size), r.seen, r.db, size);
      assert Slot(r.seen, size) == Slot(r.event, size);
    }
  }

  // ---- The driver's code ----

  class ShadowDoorbell {
    // dbbuf_db, if the controller has shadow doorbells
    var dbbufDb: Option<nat>

    constructor (shadow: bool)
      ensures dbbufDb == if shadow then Some(0) else None
    {
      dbbufDb := if shadow then Some(0) else None;
    }

    // nvme_dbbuf_update_and_check_event; event is what the event index holds when
    // it is read.
    method UpdateAndCheckEvent(value: nat, event: nat) returns (mmio: bool)
      requires value < U16 && event < U16 && (dbbufDb.Some? ==> dbbufDb.value < U16)
      modifies this
      ensures dbbufDb == if old(dbbufDb).Some? then Some(value) else None
      ensures mmio <==> old(dbbufDb).None? || OnTheWay(event, value, old(dbbufDb).value)
    {
      if dbbufDb.Some? {
        var oldValue := dbbufDb.value;
        dbbufDb := Some(value);
        NeedEventExact(event, value, oldValue);
        if !NeedEvent(event, value, oldValue) {
          return false;
        }
      }
      return true;
    }
  }
}
