/** The ids of touches: a number for each device, and on it one for each finger from when it
    lands to when it lifts (src/host/gui_sdl3_event.h:37-106, 236-237). */
module Touch {
  const DEVICES: nat := 16
  const CONTACTS: nat := 32
  const ROUND: nat := 0x1000000

  datatype Contact = Contact(number: nat, finger: nat, down: bool)

  /** `kind` is 0 for a slot that is not used. */
  datatype Device = Device(kind: nat, key: nat, next: nat, contacts: seq<Contact>)

  // ----- which device, and which of its contacts -----

  predicate Is(dev: Device, kind: nat, key: nat) {
    dev.kind == kind && dev.key == key
  }

  function Seek(devs: seq<Device>, kind: nat, key: nat, from: nat := 0): (i: nat)
    requires from <= |devs|
    ensures from <= i <= |devs| && (i < |devs| ==> Is(devs[i], kind, key))
    ensures forall j | from <= j < i :: !Is(devs[j], kind, key)
    decreases |devs| - from
  {
    if from == |devs| || Is(devs[from], kind, key) then from else Seek(devs, kind, key, from + 1)
  }

  function SeekSpare(devs: seq<Device>, from: nat := 0): (i: nat)
    requires from <= |devs|
    ensures from <= i <= |devs| && (i < |devs| ==> devs[i].kind == 0)
    ensures forall j | from <= j < i :: devs[j].kind != 0
    decreases |devs| - from
  {
    if from == |devs| || devs[from].kind == 0 then from else SeekSpare(devs, from + 1)
  }

  function SeekFinger(contacts: seq<Contact>, finger: nat, from: nat := 0): (i: nat)
    requires from <= |contacts|
    ensures from <= i <= |contacts| && (i < |contacts| ==> contacts[i].down && contacts[i].finger == finger)
    ensures forall j | from <= j < i :: !(contacts[j].down && contacts[j].finger == finger)
    decreases |contacts| - from
  {
    if from == |contacts| || (contacts[from].down && contacts[from].finger == finger) then from
    else SeekFinger(contacts, finger, from + 1)
  }

  function SeekFree(contacts: seq<Contact>, from: nat := 0): (i: nat)
    requires from <= |contacts|
    ensures from <= i <= |contacts| && (i < |contacts| ==> !contacts[i].down)
    ensures forall j | from <= j < i :: contacts[j].down
    decreases |contacts| - from
  {
    if from == |contacts| || !contacts[from].down then from else SeekFree(contacts, from + 1)
  }

  /** The slot a device has or is given: the last is shared by those there is no room for. */
  function SlotOf(devs: seq<Device>, kind: nat, key: nat): nat
    requires |devs| == DEVICES
    ensures SlotOf(devs, kind, key) < DEVICES
  {
    if Seek(devs, kind, key) < DEVICES then Seek(devs, kind, key)
    else if SeekSpare(devs) < DEVICES then SeekSpare(devs)
    else DEVICES - 1
  }

  function Seen(devs: seq<Device>, kind: nat, key: nat): (r: seq<Device>)
    requires |devs| == DEVICES
    ensures |r| == DEVICES
  {
    var i := SlotOf(devs, kind, key);
    if Seek(devs, kind, key) == DEVICES && SeekSpare(devs) < DEVICES
    then devs[i := devs[i].(kind := kind, key := key)] else devs
  }

  /** The contact a finger has or is given. */
  function PlaceOf(contacts: seq<Contact>, finger: nat): nat
    requires |contacts| == CONTACTS
    ensures PlaceOf(contacts, finger) < CONTACTS
  {
    if SeekFinger(contacts, finger) < CONTACTS then SeekFinger(contacts, finger)
    else if SeekFree(contacts) < CONTACTS then SeekFree(contacts)
    else CONTACTS - 1
  }

  predicate IsDown(dev: Device, finger: nat)
    requires |dev.contacts| == CONTACTS
  {
    SeekFinger(dev.contacts, finger) < CONTACTS
  }

  function NumberOf(dev: Device, finger: nat): nat
    requires |dev.contacts| == CONTACTS
  {
    if IsDown(dev, finger) then dev.contacts[SeekFinger(dev.contacts, finger)].number else dev.next
  }

  function Touched(dev: Device, finger: nat, up: bool): (r: Device)
    requires |dev.contacts| == CONTACTS
    ensures |r.contacts| == CONTACTS
  {
    var at := PlaceOf(dev.contacts, finger);
    dev.(contacts := dev.contacts[at := Contact(NumberOf(dev, finger), finger, !up)],
         next := if IsDown(dev, finger) then dev.next else (dev.next + 1) % ROUND)
  }

  // ----- the table -----

  class Table {
    const devices: array<Device>

    ghost predicate Valid()
      reads this, devices
    {
      devices.Length == DEVICES && forall i | 0 <= i < DEVICES :: |devices[i].contacts| == CONTACTS
    }

    constructor ()
      ensures Valid() && fresh(devices) && devices[..] == Blank()
    {
      devices := new Device[DEVICES](_ => Device(0, 0, 0, seq(CONTACTS, _ => Contact(0, 0, false))));
    }

    /** `host_gui_sdl3_device` */
    method DeviceNumber(kind: nat, key: nat) returns (r: nat)
      requires Valid() && kind != 0
      modifies devices
      ensures Valid() && devices[..] == Seen(old(devices[..]), kind, key)
      ensures r == SlotOf(old(devices[..]), kind, key) + 1
    {
      ghost var devs := devices[..];
      var spare := -1;
      var i := 0;
      while i < DEVICES
        invariant 0 <= i <= DEVICES && devices[..] == devs
        invariant Seek(devs, kind, key) == Seek(devs, kind, key, i)
        invariant if spare < 0 then SeekSpare(devs) == SeekSpare(devs, i) else spare == SeekSpare(devs) < i
      {
        if devices[i].kind == kind && devices[i].key == key { return i + 1; }
        if devices[i].kind == 0 && spare < 0 { spare := i; }
        i := i + 1;
      }
      if spare < 0 { return DEVICES; }
      devices[spare] := devices[spare].(kind := kind, key := key);
      return spare + 1;
    }

    /** `host_gui_sdl3_contact` */
    method ContactNumber(device: nat, finger: nat, up: bool) returns (r: nat)
      requires Valid() && 1 <= device <= DEVICES
      modifies devices
      ensures Valid()
      ensures devices[..] == old(devices[..])[device - 1 := Touched(old(devices[device - 1]), finger, up)]
      ensures r == NumberOf(old(devices[device - 1]), finger)
    {
      ghost var devs, was := devices[..], devices[device - 1];
      var dev := devices[device - 1];
      var at := -1;
      var i := 0;
      while i < CONTACTS && at < 0
        invariant 0 <= i <= CONTACTS
        invariant if at < 0 then SeekFinger(was.contacts, finger) == SeekFinger(was.contacts, finger, i)
                  else at == SeekFinger(was.contacts, finger) < CONTACTS
        decreases CONTACTS - i
      {
        if dev.contacts[i].down && dev.contacts[i].finger == finger { at := i; }
        i := i + 1;
      }
      if at < 0 {
        i := 0;
        while i < CONTACTS && at < 0
          invariant 0 <= i <= CONTACTS
          invariant if at < 0 then SeekFree(was.contacts) == SeekFree(was.contacts, i)
                    else at == SeekFree(was.contacts) < CONTACTS
          decreases CONTACTS - i
        {
          if !dev.contacts[i].down { at := i; }
          i := i + 1;
        }
        if at < 0 { at := CONTACTS - 1; }
        dev := dev.(contacts := dev.contacts[at := dev.contacts[at].(finger := finger, number := dev.next)],
                    next := (dev.next + 1) % ROUND);
      }
      dev := dev.(contacts := dev.contacts[at := dev.contacts[at].(down := !up)]);
      assert at == PlaceOf(was.contacts, finger);
      assert dev.contacts == Touched(was, finger, up).contacts;
      assert dev == Touched(was, finger, up);
      devices[device - 1] := dev;
      assert devices[..] == devs[device - 1 := dev];
      r := dev.contacts[at].number;
    }

    /** A touch of a finger, its id: the device and the contact together. */
    method TouchId(key: nat, finger: nat, up: bool) returns (id: nat)
      requires Valid()
      modifies devices
      ensures Valid() && devices[..] == After(old(devices[..]), Event(key, finger, up))
      ensures id == IdOf(old(devices[..]), Event(key, finger, up))
    {
      ghost var devs := devices[..];
      var device := DeviceNumber(PANEL, key);
      var contact := ContactNumber(device, finger, up);
      id := device * ROUND + contact;
    }
  }

  function Blank(): seq<Device> {
    seq(DEVICES, _ => Device(0, 0, 0, seq(CONTACTS, _ => Contact(0, 0, false))))
  }

  // ----- a run of events -----

  const PANEL: nat := 1

  datatype Event = Event(key: nat, finger: nat, up: bool)

  ghost predicate Sized(devs: seq<Device>) {
    |devs| == DEVICES && forall i | 0 <= i < DEVICES :: |devs[i].contacts| == CONTACTS
  }

  ghost function After(devs: seq<Device>, e: Event): (r: seq<Device>)
    requires Sized(devs)
    ensures Sized(r)
  {
    var i, seen := SlotOf(devs, PANEL, e.key), Seen(devs, PANEL, e.key);
    seen[i := Touched(seen[i], e.finger, e.up)]
  }

  ghost function IdOf(devs: seq<Device>, e: Event): nat
    requires Sized(devs)
  {
    var i := SlotOf(devs, PANEL, e.key);
    (i + 1) * ROUND + NumberOf(Seen(devs, PANEL, e.key)[i], e.finger)
  }

  ghost function Run(events: seq<Event>): (r: seq<Device>)
    ensures Sized(r)
    decreases |events|
  {
    if events == [] then Blank() else After(Run(events[..|events| - 1]), events[|events| - 1])
  }

  /** The id that event `i` is given. */
  ghost function Id(events: seq<Event>, i: nat): nat
    requires i < |events|
  {
    IdOf(Run(events[..i]), events[i])
  }

  // ----- while there is room -----

  predicate Known(devs: seq<Device>, key: nat)
    requires |devs| == DEVICES
  {
    Seek(devs, PANEL, key) < DEVICES
  }

  ghost predicate Down(devs: seq<Device>, key: nat, finger: nat)
    requires Sized(devs)
  {
    Known(devs, key) && IsDown(devs[Seek(devs, PANEL, key)], finger)
  }

  /** What there has to be room for: a slot for a device that is new, a contact for a finger that
      is not down, and a number for it under the last. */
  ghost predicate Room(devs: seq<Device>, e: Event)
    requires Sized(devs)
  {
    && (Known(devs, e.key) || SeekSpare(devs) < DEVICES)
    && (Down(devs, e.key, e.finger) ||
        var dev := Seen(devs, PANEL, e.key)[SlotOf(devs, PANEL, e.key)];
        SeekFree(dev.contacts) < CONTACTS && dev.next + 1 < ROUND)
  }

  ghost predicate RoomAt(events: seq<Event>, i: nat)
    requires i < |events|
  {
    Room(Run(events[..i]), events[i])
  }

  ghost predicate RoomAll(events: seq<Event>) {
    forall i | 0 <= i < |events| :: RoomAt(events, i)
  }

  /** Of the contacts that are down no two are of a finger, no two have a number, and all have one
      that is under the next. */
  ghost predicate DeviceOk(dev: Device) {
    && |dev.contacts| == CONTACTS && dev.next < ROUND
    && (forall i | 0 <= i < CONTACTS && dev.contacts[i].down :: dev.contacts[i].number < dev.next)
    && (forall i, j | 0 <= i < j < CONTACTS && dev.contacts[i].down && dev.contacts[j].down ::
          dev.contacts[i].finger != dev.contacts[j].finger && dev.contacts[i].number != dev.contacts[j].number)
  }

  ghost predicate DevicesOk(devs: seq<Device>) {
    && |devs| == DEVICES
    && (forall i | 0 <= i < DEVICES :: DeviceOk(devs[i]))
    && (forall i, j | 0 <= i < DEVICES && 0 <= j < CONTACTS && devs[i].kind == 0 :: !devs[i].contacts[j].down)
    && (forall i, j | 0 <= i < j < DEVICES && devs[i].kind != 0 :: !Is(devs[j], devs[i].kind, devs[i].key))
  }

  lemma SeekIs(devs: seq<Device>, key: nat, i: nat)
    requires DevicesOk(devs) && i < DEVICES && Is(devs[i], PANEL, key)
    ensures Seek(devs, PANEL, key) == i
  {
  }

  lemma FingerIs(dev: Device, finger: nat, i: nat)
    requires DeviceOk(dev) && i < CONTACTS && dev.contacts[i].down && dev.contacts[i].finger == finger
    ensures SeekFinger(dev.contacts, finger) == i
  {
  }

  /** The number a finger that is down has. */
  lemma TouchedIs(dev: Device, finger: nat, up: bool, other: nat)
    requires DeviceOk(dev)
    requires IsDown(dev, finger) || (SeekFree(dev.contacts) < CONTACTS && dev.next + 1 < ROUND)
    ensures var now := Touched(dev, finger, up);
            && DeviceOk(now) && dev.next <= now.next
            && (!IsDown(dev, finger) ==> now.next == dev.next + 1)
            && (IsDown(now, finger) <==> !up)
            && (!up ==> NumberOf(now, finger) == NumberOf(dev, finger))
            && (other != finger ==> (IsDown(now, other) <==> IsDown(dev, other)))
            && (other != finger && IsDown(dev, other) ==> NumberOf(now, other) == NumberOf(dev, other))
  {
    var now, at := Touched(dev, finger, up), PlaceOf(dev.contacts, finger);
    TouchedOk(dev, finger, up);
    if !up { FingerIs(now, finger, at); }
    if IsDown(dev, finger) { assert at == SeekFinger(dev.contacts, finger); }
    if up && IsDown(now, finger) {
      var i := SeekFinger(now.contacts, finger);
      assert i != at && dev.contacts[i].down && dev.contacts[i].finger == finger;
      FingerIs(dev, finger, i);
    }
    if other != finger {
      if IsDown(dev, other) {
        var i := SeekFinger(dev.contacts, other);
        assert i != at;
        FingerIs(now, other, i);
      }
      if IsDown(now, other) {
        var i := SeekFinger(now.contacts, other);
        assert i != at;
        FingerIs(dev, other, i);
      }
    }
  }

  lemma TouchedOk(dev: Device, finger: nat, up: bool)
    requires DeviceOk(dev)
    requires IsDown(dev, finger) || (SeekFree(dev.contacts) < CONTACTS && dev.next + 1 < ROUND)
    ensures DeviceOk(Touched(dev, finger, up))
  {
    var now, at := Touched(dev, finger, up), PlaceOf(dev.contacts, finger);
    forall i: nat | i < CONTACTS && i != at && now.contacts[i].down
      ensures now.contacts[i].finger != finger && now.contacts[i].number != NumberOf(dev, finger) {}
  }

  /** With every contact down, a finger that is not among them puts one of them out: it is taken
      to have lifted. */
  lemma FullLosesOne(dev: Device, finger: nat, up: bool)
    requires DeviceOk(dev) && !IsDown(dev, finger) && SeekFree(dev.contacts) == CONTACTS
    ensures exists other :: other != finger && IsDown(dev, other) && !IsDown(Touched(dev, finger, up), other)
  {
    var last, now := CONTACTS - 1, Touched(dev, finger, up);
    var other := dev.contacts[last].finger;
    assert dev.contacts[last].down;
    FingerIs(dev, other, last);
    if IsDown(now, other) {
      var i := SeekFinger(now.contacts, other);
      assert i != last;
      FingerIs(dev, other, i);
    }
  }

  /** Of a device that is known, and of one that is seen for the first time. */
  lemma SeenIs(devs: seq<Device>, key: nat, other: nat)
    requires DevicesOk(devs) && (Known(devs, key) || SeekSpare(devs) < DEVICES)
    ensures var now, i := Seen(devs, PANEL, key), SlotOf(devs, PANEL, key);
            && DevicesOk(now) && Seek(now, PANEL, key) == i
            && (forall j | 0 <= j < DEVICES :: now[j].contacts == devs[j].contacts && now[j].next == devs[j].next)
            && (Known(devs, other) ==> Seek(now, PANEL, other) == Seek(devs, PANEL, other))
            && (Known(now, other) ==> other == key || Known(devs, other))
            && (!Known(devs, key) ==> forall finger :: !IsDown(now[i], finger))
  {
    var now, i := Seen(devs, PANEL, key), SlotOf(devs, PANEL, key);
    if !Known(devs, key) {
      assert now[i].kind == PANEL;
      assert forall j | 0 <= j < DEVICES :: DeviceOk(now[j]);
    }
    SeekIs(now, key, i);
    if Known(devs, other) { SeekIs(now, other, Seek(devs, PANEL, other)); }
    if Known(now, other) && other != key { SeekIs(devs, other, Seek(now, PANEL, other)); }
  }

  /** The id a finger that is down has. */
  ghost function HeldId(devs: seq<Device>, key: nat, finger: nat): nat
    requires Sized(devs) && Known(devs, key)
  {
    var i := Seek(devs, PANEL, key);
    (i + 1) * ROUND + NumberOf(devs[i], finger)
  }

  /** The id that the next finger to land on a device is given. */
  ghost function NextId(devs: seq<Device>, key: nat): nat
    requires Sized(devs) && Known(devs, key)
  {
    var i := Seek(devs, PANEL, key);
    (i + 1) * ROUND + devs[i].next
  }

  lemma PutIs(devs: seq<Device>, i: nat, dev: Device, key: nat)
    requires DevicesOk(devs) && i < DEVICES && devs[i].kind != 0 && DeviceOk(dev)
    requires dev.kind == devs[i].kind && dev.key == devs[i].key
    ensures DevicesOk(devs[i := dev])
    ensures Seek(devs[i := dev], PANEL, key) == Seek(devs, PANEL, key)
  {
    var now := devs[i := dev];
    hide DeviceOk;
    if Known(devs, key) { SeekIs(now, key, Seek(devs, PANEL, key)); }
    if Known(now, key) { SeekIs(devs, key, Seek(now, PANEL, key)); }
  }

  /** What an event makes of its own finger. */
  lemma EventOwn(devs: seq<Device>, e: Event)
    requires DevicesOk(devs) && Room(devs, e)
    ensures var now := After(devs, e);
            && DevicesOk(now) && Known(now, e.key)
            && (Down(now, e.key, e.finger) <==> !e.up)
            && (!e.up ==> HeldId(now, e.key, e.finger) == IdOf(devs, e))
            && (Down(devs, e.key, e.finger) ==> IdOf(devs, e) == HeldId(devs, e.key, e.finger))
            && (!Down(devs, e.key, e.finger) ==> NextId(now, e.key) == IdOf(devs, e) + 1)
            && (!Down(devs, e.key, e.finger) && Known(devs, e.key) ==> IdOf(devs, e) == NextId(devs, e.key))
  {
    var now, i, seen := After(devs, e), SlotOf(devs, PANEL, e.key), Seen(devs, PANEL, e.key);
    SeenIs(devs, e.key, e.key);
    hide DeviceOk, Touched, SeekSpare, SeekFree, SeekFinger;
    assert DeviceOk(seen[i]);
    TouchedIs(seen[i], e.finger, e.up, e.finger);
    PutIs(seen, i, now[i], e.key);
    hide DevicesOk, Seen, Seek;
  }

  lemma RoomIs(devs: seq<Device>, e: Event)
    requires DevicesOk(devs) && Room(devs, e)
    ensures var dev := Seen(devs, PANEL, e.key)[SlotOf(devs, PANEL, e.key)];
            && |dev.contacts| == CONTACTS && (Known(devs, e.key) || SeekSpare(devs) < DEVICES)
            && (IsDown(dev, e.finger) || (SeekFree(dev.contacts) < CONTACTS && dev.next + 1 < ROUND))
  {
  }

  /** What it makes of a finger of another device. */
  lemma EventElsewhere(devs: seq<Device>, e: Event, key: nat, finger: nat)
    requires DevicesOk(devs) && Room(devs, e) && key != e.key
    ensures var now := After(devs, e);
            && (Known(devs, key) ==> Known(now, key) && NextId(devs, key) == NextId(now, key))
            && (Down(now, key, finger) <==> Down(devs, key, finger))
            && (Down(devs, key, finger) ==> HeldId(now, key, finger) == HeldId(devs, key, finger))
  {
    var now, i, seen := After(devs, e), SlotOf(devs, PANEL, e.key), Seen(devs, PANEL, e.key);
    RoomIs(devs, e);
    SeenIs(devs, e.key, key);
    assert DeviceOk(seen[i]);
    hide DeviceOk, Room, Touched, SeekSpare, SeekFree, SeekFinger, IsDown, NumberOf;
    TouchedIs(seen[i], e.finger, e.up, finger);
    PutIs(seen, i, now[i], key);
    if Known(devs, key) {
      var j := Seek(devs, PANEL, key);
      assert j != i && now[j] == seen[j];
    }
    hide DevicesOk, Seen;
  }

  /** What it makes of another finger of its device. */
  lemma EventBeside(devs: seq<Device>, e: Event, finger: nat)
    requires DevicesOk(devs) && Room(devs, e) && Known(devs, e.key)
    ensures var now := After(devs, e);
            && Known(now, e.key) && NextId(devs, e.key) <= NextId(now, e.key)
            && (finger != e.finger ==>
                  && (Down(now, e.key, finger) <==> Down(devs, e.key, finger))
                  && (Down(devs, e.key, finger) ==> HeldId(now, e.key, finger) == HeldId(devs, e.key, finger)))
  {
    var now, i := After(devs, e), SlotOf(devs, PANEL, e.key);
    assert Seen(devs, PANEL, e.key) == devs && i == Seek(devs, PANEL, e.key);
    assert DeviceOk(devs[i]);
    hide DeviceOk, Touched, SeekSpare, SeekFree, SeekFinger;
    TouchedIs(devs[i], e.finger, e.up, finger);
    PutIs(devs, i, now[i], e.key);
    hide DevicesOk, Seen, IsDown, NumberOf;
  }

  lemma EventFresh(devs: seq<Device>, e: Event, finger: nat)
    requires DevicesOk(devs) && Room(devs, e) && !Known(devs, e.key) && finger != e.finger
    ensures !Down(After(devs, e), e.key, finger)
  {
    var now, i, seen := After(devs, e), SlotOf(devs, PANEL, e.key), Seen(devs, PANEL, e.key);
    SeenIs(devs, e.key, e.key);
    assert DeviceOk(seen[i]) && !IsDown(seen[i], finger);
    hide DeviceOk, Touched, SeekSpare, SeekFree, SeekFinger;
    TouchedIs(seen[i], e.finger, e.up, finger);
    PutIs(seen, i, now[i], e.key);
    hide DevicesOk, Seen, IsDown, NumberOf;
  }

  /** What it makes of another. */
  lemma EventOther(devs: seq<Device>, e: Event, key: nat, finger: nat)
    requires DevicesOk(devs) && Room(devs, e)
    ensures var now := After(devs, e);
            && (Known(devs, key) ==> Known(now, key) && NextId(devs, key) <= NextId(now, key))
            && (key != e.key || finger != e.finger ==>
                  && (Down(now, key, finger) <==> Down(devs, key, finger))
                  && (Down(devs, key, finger) ==> HeldId(now, key, finger) == HeldId(devs, key, finger)))
  {
    assert Sized(devs);
    hide DevicesOk, Room, After, NextId, HeldId, Down, Known;
    if key != e.key {
      EventElsewhere(devs, e, key, finger);
    } else if Known(devs, key) {
      EventBeside(devs, e, finger);
      EventOwn(devs, e);
    } else if finger != e.finger {
      EventFresh(devs, e, finger);
    }
  }

  // ----- a run with room -----

  lemma RunNext(events: seq<Event>, n: nat)
    requires n < |events|
    ensures Run(events[..n + 1]) == After(Run(events[..n]), events[n])
  {
    assert events[..n + 1][..n] == events[..n];
  }

  lemma BlankOk()
    ensures DevicesOk(Blank())
  {
    var devs := Blank();
    forall i | 0 <= i < DEVICES ensures DeviceOk(devs[i]) && devs[i].kind == 0 && forall j | 0 <= j < CONTACTS :: !devs[i].contacts[j].down {}
  }

  lemma {:induction false} RunOk(events: seq<Event>, n: nat)
    requires RoomAll(events) && n <= |events|
    ensures DevicesOk(Run(events[..n]))
  {
    hide DevicesOk, Room, After;
    if n > 0 {
      RunOk(events, n - 1);
      RunNext(events, n - 1);
      assert RoomAt(events, n - 1);
      EventOwn(Run(events[..n - 1]), events[n - 1]);
    } else {
      BlankOk();
      assert Run(events[..0]) == Blank();
    }
  }

  predicate Same(a: Event, b: Event) {
    a.key == b.key && a.finger == b.finger
  }

  /** From when it lands till it lifts a finger is down with the id it landed with. */
  lemma {:induction false} HeldOn(events: seq<Event>, i: nat, n: nat)
    requires RoomAll(events) && i < n <= |events|
    requires forall k | i <= k < n && Same(events[k], events[i]) :: !events[k].up
    ensures var devs, e := Run(events[..n]), events[i];
            Known(devs, e.key) && Down(devs, e.key, e.finger) && HeldId(devs, e.key, e.finger) == Id(events, i)
  {
    hide DevicesOk, Room, After, HeldId, IdOf, Down, Known;
    var was, last, e := Run(events[..n - 1]), events[n - 1], events[i];
    RunOk(events, n - 1);
    RunNext(events, n - 1);
    assert RoomAt(events, n - 1);
    EventOwn(was, last);
    if i < n - 1 {
      HeldOn(events, i, n - 1);
      if !Same(last, e) {
        EventOther(was, last, e.key, e.finger);
      }
    }
  }

  /** A finger has the one id from when it lands to when it lifts, moves and the lift as well. */
  lemma KeepsId(events: seq<Event>, i: nat, j: nat)
    requires RoomAll(events) && i < j < |events| && Same(events[i], events[j])
    requires forall k | i <= k < j && Same(events[k], events[i]) :: !events[k].up
    ensures Id(events, j) == Id(events, i)
  {
    HeldOn(events, i, j);
    RunOk(events, j);
    hide DevicesOk, Room, After, HeldId, IdOf, Down, Known;
    assert RoomAt(events, j);
    EventOwn(Run(events[..j]), events[j]);
  }

  lemma HeldApart(devs: seq<Device>, key: nat, finger: nat, key': nat, finger': nat)
    requires DevicesOk(devs) && Down(devs, key, finger) && Down(devs, key', finger')
    requires HeldId(devs, key, finger) == HeldId(devs, key', finger')
    ensures key == key' && finger == finger'
  {
    var i, j := Seek(devs, PANEL, key), Seek(devs, PANEL, key');
    assert DeviceOk(devs[i]) && DeviceOk(devs[j]);
    hide DevicesOk;
    var c, d := SeekFinger(devs[i].contacts, finger), SeekFinger(devs[j].contacts, finger');
    assert devs[i].contacts[c].number < ROUND && devs[j].contacts[d].number < ROUND;
    assert i == j;
    assert c == d;
  }

  /** No two fingers that are down have an id between them. */
  lemma NoneShared(events: seq<Event>, key: nat, finger: nat, key': nat, finger': nat)
    requires RoomAll(events)
    requires var devs := Run(events);
             && Down(devs, key, finger) && Down(devs, key', finger')
             && HeldId(devs, key, finger) == HeldId(devs, key', finger')
    ensures key == key' && finger == finger'
  {
    assert events[..|events|] == events;
    RunOk(events, |events|);
    HeldApart(Run(events), key, finger, key', finger');
  }

  lemma {:induction false} NextOn(events: seq<Event>, i: nat, n: nat)
    requires RoomAll(events) && i < n <= |events|
    requires !Down(Run(events[..i]), events[i].key, events[i].finger)
    ensures Known(Run(events[..n]), events[i].key) && Id(events, i) < NextId(Run(events[..n]), events[i].key)
  {
    hide DevicesOk, Room, After, NextId, IdOf, HeldId, Down, Known;
    var was, last, e := Run(events[..n - 1]), events[n - 1], events[i];
    RunOk(events, n - 1);
    RunNext(events, n - 1);
    assert RoomAt(events, n - 1);
    EventOwn(was, last);
    if i < n - 1 {
      NextOn(events, i, n - 1);
      EventOther(was, last, e.key, e.finger);
    }
  }

  /** And of two touches of a device the one that lands later has the bigger id. */
  lemma LaterIsBigger(events: seq<Event>, i: nat, j: nat)
    requires RoomAll(events) && i < j < |events| && events[i].key == events[j].key
    requires !Down(Run(events[..i]), events[i].key, events[i].finger)
    requires !Down(Run(events[..j]), events[j].key, events[j].finger)
    ensures Id(events, i) < Id(events, j)
  {
    NextOn(events, i, j);
    RunOk(events, j);
    hide DevicesOk, Room, After, NextId, IdOf, HeldId, Down, Known;
    assert RoomAt(events, j);
    EventOwn(Run(events[..j]), events[j]);
  }

  // ----- the two parts of an id -----

  ghost predicate InRound(devs: seq<Device>) {
    Sized(devs) && forall i | 0 <= i < DEVICES :: NumbersOk(devs[i])
  }

  ghost predicate NumbersOk(dev: Device) {
    dev.next < ROUND && forall j | 0 <= j < |dev.contacts| :: dev.contacts[j].number < ROUND
  }

  lemma {:induction false} RunInRound(events: seq<Event>)
    ensures InRound(Run(events))
    decreases |events|
  {
    if events == [] {
    } else {
      var devs, e := Run(events[..|events| - 1]), events[|events| - 1];
      RunInRound(events[..|events| - 1]);
      var i, seen := SlotOf(devs, PANEL, e.key), Seen(devs, PANEL, e.key);
      assert NumbersOk(devs[i]);
      assert NumbersOk(seen[i]) && NumbersOk(Touched(seen[i], e.finger, e.up));
      hide NumbersOk;
      forall k | 0 <= k < DEVICES ensures NumbersOk(After(devs, e)[k]) { assert NumbersOk(devs[k]); }
    }
  }

  lemma TwoParts(device: nat, contact: nat)
    requires contact < ROUND
    ensures (device * ROUND + contact) / ROUND == device && (device * ROUND + contact) % ROUND == contact
  {
  }

  /** An id is of 32 bits, the device over the contact. The device is 1 or more, so a touch never has the
      id 0 or one of the mouse, which is device 0. */
  lemma IdParts(events: seq<Event>, i: nat)
    requires i < |events|
    ensures var devs, e := Run(events[..i]), events[i];
            && ROUND <= Id(events, i) < 0x1_0000_0000
            && Id(events, i) / ROUND == SlotOf(devs, PANEL, e.key) + 1
            && Id(events, i) % ROUND == NumberOf(Seen(devs, PANEL, e.key)[SlotOf(devs, PANEL, e.key)], e.finger)
  {
    RunInRound(events[..i]);
    var devs, e := Run(events[..i]), events[i];
    var slot := SlotOf(devs, PANEL, e.key);
    assert NumbersOk(devs[slot]);
    TwoParts(slot + 1, NumberOf(Seen(devs, PANEL, e.key)[slot], e.finger));
  }
}
