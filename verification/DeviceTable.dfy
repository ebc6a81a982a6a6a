/** The device slots of main/usb_backend.c and the registry of main/virtual_device.c, as a state
    that attach, detach and register events change. */
module DeviceTable {
  import opened Bytes
  import opened Wrappers
  import opened UsbDevice
  import opened Descriptors
  import opened BusIds

  const CLASS_HUB: Byte := 9
  const VIRTUAL_MAX: nat := 4
  const BUS_USB: U32 := 1
  const BUS_VIRTUAL: U32 := 2

  datatype Slot = Free | Used(hdl: nat, device: Device)

  /** What the host library says about a device that has been opened. */
  datatype UsbDesc = UsbDesc(
    idVendor: U16, idProduct: U16, bcdDevice: U16, cls: Byte, subclass: Byte, protocol: Byte, numConfigurations: Byte)

  datatype Speed = Low | Full | High | OtherSpeed

  datatype Info = Info(addr: Byte, speed: Speed, configuration: Byte)

  /** Handles are numbered in the order in which devices are opened; closed counts the calls that
      close each.  Entries of virt with one number are one object, registered more than once. */
  datatype State = State(slots: seq<Slot>, opens: nat, closed: multiset<nat>, virt: seq<Device>, twice: bool)

  datatype Event =
    | NotOpened
    | Attach(desc: Option<UsbDesc>, info: Option<Info>, config: Option<seq<Byte>>)
    | Detach(hdl: nat)
    | Register(device: Device, alias: nat)   // alias: the number the same object carries already

  ghost predicate Init(s: State) {
    && (forall i | 0 <= i < |s.slots| :: s.slots[i] == Free)
    && s.opens == 0 && s.closed == multiset{} && s.virt == [] && !s.twice
  }

  function SpeedCode(speed: Speed): U32 {
    match speed case Low => 1 case Full => 2 case High => 3 case OtherSpeed => 0
  }

  function MakeDevice(desc: UsbDesc, info: Info, config: Option<seq<Byte>>): (d: Device)
    ensures Fits(d)
  {
    var ds := if config.Some? then Split(config.value) else [];
    Device(Field("/esp-usb-host/" + Name('1', info.addr), PATH), BusidOf('1', info.addr),
      BUS_USB, info.addr, SpeedCode(info.speed),
      desc.idVendor, desc.idProduct, desc.bcdDevice, desc.cls, desc.subclass, desc.protocol,
      info.configuration, desc.numConfigurations,
      First(MAX_INTERFACES, InterfacesIn(ds)), First(MAX_ENDPOINTS, EndpointsIn(ds)))
  }

  predicate IsHub(d: Device) {
    d.cls == CLASS_HUB || exists i | 0 <= i < |d.interfaces| :: d.interfaces[i].cls == CLASS_HUB
  }

  /** What the find functions look for. */
  datatype Query = ByDevnum(devnum: U32) | ByHandle(hdl: nat) | ByBusid(key: Busid) | AnyFree

  predicate Hit(slot: Slot, q: Query) {
    match q
    case ByDevnum(n) => slot.Used? && slot.device.devnum == n
    case ByHandle(h) => slot.Used? && slot.hdl == h
    case ByBusid(key) => slot.Used? && Matches(key, slot.device.busid)
    case AnyFree => slot.Free?
  }

  /** The first slot that answers a query, or |slots|. */
  function Find(slots: seq<Slot>, q: Query): (i: nat)
    ensures i <= |slots| && (i < |slots| ==> Hit(slots[i], q))
    ensures forall k | 0 <= k < i :: !Hit(slots[k], q)
  {
    if slots == [] || Hit(slots[0], q) then 0 else 1 + Find(slots[1..], q)
  }

  lemma FindIs(slots: seq<Slot>, q: Query, i: nat)
    requires i <= |slots| && (i < |slots| ==> Hit(slots[i], q)) && forall k | 0 <= k < i :: !Hit(slots[k], q)
    ensures Find(slots, q) == i
  {}

  function CloseHandle(s: State, h: nat): State { s.(closed := s.closed + multiset{h}) }

  /** close_slot_locked */
  function CloseSlot(s: State, i: nat): State
    requires i < |s.slots|
  {
    if s.slots[i].Free? then s else CloseHandle(s, s.slots[i].hdl).(slots := s.slots[i := Free])
  }

  /** export_new_device, after the device has been opened and found to be no hub. */
  function Place(s: State, h: nat, d: Device): State {
    var prev := Find(s.slots, ByDevnum(d.devnum));
    var t := if prev < |s.slots| then CloseSlot(s, prev) else s;
    var free := Find(t.slots, AnyFree);
    if free < |t.slots| then t.(slots := t.slots[free := Used(h, d)]) else CloseHandle(t, h)
  }

  function Named(d: Device, number: U32): Device {
    NameFits('2', number);
    d.(busnum := BUS_VIRTUAL, devnum := number, busid := Printed(d.busid, Name('2', number)),
       path := Printed(d.path, "/esp-virtual/" + Name('2', number)))
  }

  predicate Registered(virt: seq<Device>, number: nat) {
    exists i | 0 <= i < |virt| :: virt[i].devnum == number
  }

  /** virtual_device_register */
  function Enrol(s: State, d: Device, alias: nat): State {
    if |s.virt| >= VIRTUAL_MAX then s
    else
      var named := Named(d, |s.virt| + 1);
      s.(virt := seq(|s.virt|, i requires 0 <= i < |s.virt| => if s.virt[i].devnum == alias then named else s.virt[i])
                 + [named],
         twice := s.twice || Registered(s.virt, alias))
  }

  function Step(s: State, e: Event): State {
    match e
    case NotOpened => s
    case Attach(desc, info, config) =>
      var h, t := s.opens, s.(opens := s.opens + 1);
      if desc.None? || info.None? then CloseHandle(t, h)
      else
        var d := MakeDevice(desc.value, info.value, config);
        if IsHub(d) then CloseHandle(t, h) else Place(t, h, d)
    case Detach(hdl) =>
      var i := Find(s.slots, ByHandle(hdl));
      if i < |s.slots| then CloseSlot(s, i) else s
    case Register(d, alias) => Enrol(s, d, alias)
  }

  predicate EventOk(e: Event) { e.Register? ==> Fits(e.device) }

  ghost predicate IsRun(run: seq<State>, events: seq<Event>) {
    && |run| == |events| + 1 && Init(run[0])
    && forall k | 0 <= k < |events| :: EventOk(events[k]) && run[k + 1] == Step(run[k], events[k])
  }

  // ---------------------------------------------------------------------------------------
  // The invariant

  predicate SlotOk(slot: Slot, opens: nat) {
    slot.Used? ==>
      && slot.hdl < opens && Fits(slot.device)
      && slot.device.busnum == BUS_USB && slot.device.devnum < 256
      && slot.device.busid == BusidOf('1', slot.device.devnum)
  }

  predicate Apart(a: Slot, b: Slot) {
    a.Used? && b.Used? ==> a.hdl != b.hdl && a.device.devnum != b.device.devnum
  }

  predicate Held(slots: seq<Slot>, h: nat) {
    exists i | 0 <= i < |slots| :: Hit(slots[i], ByHandle(h))
  }

  ghost predicate TableOk(slots: seq<Slot>, opens: nat) {
    && (forall i | 0 <= i < |slots| :: SlotOk(slots[i], opens))
    && (forall i, j | 0 <= i < j < |slots| :: Apart(slots[i], slots[j]))
  }

  /** Every handle opened is held by a slot, or has been closed once; but for h, which is neither. */
  ghost predicate HandlesOk(s: State, loose: int) {
    forall h: nat :: s.closed[h] == if h < s.opens && !Held(s.slots, h) && h != loose then 1 else 0
  }

  predicate VirtualOk(virt: seq<Device>) {
    && |virt| <= VIRTUAL_MAX
    && (forall i | 0 <= i < |virt| ::
          && virt[i].busnum == BUS_VIRTUAL && 1 <= virt[i].devnum <= |virt| && Fits(virt[i])
          && Expected(virt[i].busid) == BusidOf('2', virt[i].devnum))
    && (forall i, j | 0 <= i < |virt| && 0 <= j < |virt| && virt[i].devnum == virt[j].devnum :: virt[i] == virt[j])
  }

  predicate Repeats(virt: seq<Device>) {
    exists i, j | 0 <= i < j < |virt| :: virt[i].devnum == virt[j].devnum
  }

  ghost predicate Inv(s: State) {
    TableOk(s.slots, s.opens) && HandlesOk(s, -1) && VirtualOk(s.virt) && (s.twice <==> Repeats(s.virt))
  }

  lemma CloseSlotKeeps(s: State, i: nat, loose: int)
    requires i < |s.slots| && TableOk(s.slots, s.opens) && HandlesOk(s, loose)
    requires s.slots[i].Used? ==> s.slots[i].hdl != loose
    ensures var t := CloseSlot(s, i); TableOk(t.slots, t.opens) && HandlesOk(t, loose)
  {
    hide BusidOf, Fits;
    var t := CloseSlot(s, i);
    if s.slots[i].Used? {
      var g := s.slots[i].hdl;
      assert Hit(s.slots[i], ByHandle(g)) && SlotOk(s.slots[i], s.opens);
      forall j, k | 0 <= j < k < |t.slots| ensures Apart(t.slots[j], t.slots[k]) {
        assert Apart(s.slots[j], s.slots[k]);
      }
      forall j | 0 <= j < |t.slots| ensures SlotOk(t.slots[j], t.opens) { assert SlotOk(s.slots[j], s.opens); }
      forall h: nat ensures t.closed[h] == if h < t.opens && !Held(t.slots, h) && h != loose then 1 else 0 {
        HeldAfterClose(s.slots, i, h);
        assert s.closed[h] == if h < s.opens && !Held(s.slots, h) && h != loose then 1 else 0;
      }
    }
  }

  lemma HeldAfterClose(slots: seq<Slot>, i: nat, h: nat)
    requires i < |slots| && slots[i].Used?
    requires forall j, k | 0 <= j < k < |slots| :: Apart(slots[j], slots[k])
    ensures Held(slots[i := Free], h) <==> Held(slots, h) && h != slots[i].hdl
  {
    var t := slots[i := Free];
    if Held(t, h) {
      var j :| 0 <= j < |t| && Hit(t[j], ByHandle(h));
      assert Hit(slots[j], ByHandle(h)) && j != i;
      if j < i { assert Apart(slots[j], slots[i]); } else { assert Apart(slots[i], slots[j]); }
    }
    if Held(slots, h) && h != slots[i].hdl {
      var j :| 0 <= j < |slots| && Hit(slots[j], ByHandle(h));
      assert Hit(t[j], ByHandle(h));
    }
  }

  lemma PutKeeps(s: State, i: nat, h: nat, d: Device)
    requires i < |s.slots| && s.slots[i].Free? && TableOk(s.slots, s.opens) && HandlesOk(s, h)
    requires SlotOk(Used(h, d), s.opens) && !Held(s.slots, h)
    requires forall k | 0 <= k < |s.slots| :: !Hit(s.slots[k], ByDevnum(d.devnum))
    ensures var t := s.(slots := s.slots[i := Used(h, d)]); TableOk(t.slots, t.opens) && HandlesOk(t, -1)
  {
    hide BusidOf, Fits;
    var t := s.(slots := s.slots[i := Used(h, d)]);
    forall k | 0 <= k < |s.slots| ensures !Hit(s.slots[k], ByHandle(h)) {}
    forall j, k | 0 <= j < k < |t.slots| ensures Apart(t.slots[j], t.slots[k]) {
      assert Apart(s.slots[j], s.slots[k]);
      assert !Hit(s.slots[j], ByDevnum(d.devnum)) && !Hit(s.slots[k], ByDevnum(d.devnum));
    }
    forall j | 0 <= j < |t.slots| ensures SlotOk(t.slots[j], t.opens) { assert SlotOk(s.slots[j], s.opens); }
    forall g: nat ensures t.closed[g] == if g < t.opens && !Held(t.slots, g) then 1 else 0 {
      HeldAfterPut(s.slots, i, h, d, g);
      assert s.closed[g] == if g < s.opens && !Held(s.slots, g) && g != h then 1 else 0;
    }
  }

  lemma HeldAfterPut(slots: seq<Slot>, i: nat, h: nat, d: Device, g: nat)
    requires i < |slots| && slots[i].Free?
    ensures Held(slots[i := Used(h, d)], g) <==> Held(slots, g) || g == h
  {
    var t := slots[i := Used(h, d)];
    assert Hit(t[i], ByHandle(h));
    if Held(slots, g) {
      var j :| 0 <= j < |slots| && Hit(slots[j], ByHandle(g));
      assert Hit(t[j], ByHandle(g));
    }
    if Held(t, g) && g != h {
      var j :| 0 <= j < |t| && Hit(t[j], ByHandle(g));
      assert Hit(slots[j], ByHandle(g));
    }
  }

  lemma CloseLooseKeeps(s: State, h: nat)
    requires h < s.opens && !Held(s.slots, h) && HandlesOk(s, h)
    ensures HandlesOk(CloseHandle(s, h), -1)
  {
    var t := CloseHandle(s, h);
    forall g: nat ensures t.closed[g] == if g < t.opens && !Held(t.slots, g) then 1 else 0 {
      assert s.closed[g] == if g < s.opens && !Held(s.slots, g) && g != h then 1 else 0;
    }
  }

  lemma OpenKeeps(s: State)
    requires TableOk(s.slots, s.opens) && HandlesOk(s, -1)
    ensures
      var t := s.(opens := s.opens + 1);
      TableOk(t.slots, t.opens) && HandlesOk(t, s.opens) && !Held(t.slots, s.opens)
  {
    hide BusidOf, Fits;
    var t := s.(opens := s.opens + 1);
    forall j | 0 <= j < |t.slots| ensures SlotOk(t.slots[j], t.opens) && !Hit(t.slots[j], ByHandle(s.opens)) {
      assert SlotOk(s.slots[j], s.opens);
    }
    forall g: nat ensures t.closed[g] == if g < t.opens && !Held(t.slots, g) && g != s.opens then 1 else 0 {
      assert s.closed[g] == if g < s.opens && !Held(s.slots, g) then 1 else 0;
    }
  }

  lemma PlaceKeeps(s: State, h: nat, d: Device)
    requires TableOk(s.slots, s.opens) && HandlesOk(s, h) && !Held(s.slots, h) && SlotOk(Used(h, d), s.opens)
    ensures var t := Place(s, h, d); TableOk(t.slots, t.opens) && HandlesOk(t, -1)
  {
    hide BusidOf, Fits, HandlesOk, SlotOk;
    var prev := Find(s.slots, ByDevnum(d.devnum));
    var t := if prev < |s.slots| then CloseSlot(s, prev) else s;
    if prev < |s.slots| {
      assert s.slots[prev].Used?;
      NotHeldBy(s.slots, prev, h);
      CloseSlotKeeps(s, prev, h);
      HeldAfterClose(s.slots, prev, h);
    }
    LastOfItsNumber(s.slots, d.devnum);
    var free := Find(t.slots, AnyFree);
    if free < |t.slots| {
      PutKeeps(t, free, h, d);
    } else {
      LooseIsOpen(s, h, d);
      CloseLooseKeeps(t, h);
    }
  }

  lemma NotHeldBy(slots: seq<Slot>, i: nat, h: nat)
    requires i < |slots| && slots[i].Used? && !Held(slots, h)
    ensures slots[i].hdl != h
  {
    assert slots[i].hdl == h ==> Hit(slots[i], ByHandle(slots[i].hdl));
  }

  lemma LooseIsOpen(s: State, h: nat, d: Device)
    requires SlotOk(Used(h, d), s.opens)
    ensures h < s.opens
  {}

  /** Once the slot of a number has been closed, no other has that number. */
  lemma LastOfItsNumber(slots: seq<Slot>, n: U32)
    requires forall j, k | 0 <= j < k < |slots| :: Apart(slots[j], slots[k])
    ensures var prev := Find(slots, ByDevnum(n)); var t := if prev < |slots| then slots[prev := Free] else slots;
      forall k | 0 <= k < |t| :: !Hit(t[k], ByDevnum(n))
  {
    var prev := Find(slots, ByDevnum(n));
    var t := if prev < |slots| then slots[prev := Free] else slots;
    forall k | 0 <= k < |t| ensures !Hit(t[k], ByDevnum(n)) {
      if prev < k { assert Apart(slots[prev], slots[k]); }
    }
  }

  lemma EnrolKeeps(s: State, d: Device, alias: nat)
    requires VirtualOk(s.virt) && Fits(d) && (s.twice <==> Repeats(s.virt))
    ensures var t := Enrol(s, d, alias); VirtualOk(t.virt) && (t.twice <==> Repeats(t.virt))
  {
    if |s.virt| < VIRTUAL_MAX {
      var t, n := Enrol(s, d, alias), |s.virt|;
      hide BusidOf, Named, Fits;
      NamedOk(d, n + 1);
      assert forall i | 0 <= i < n :: t.virt[i] == if s.virt[i].devnum == alias then t.virt[n] else s.virt[i];
      EnrolNumbers(s.virt, t.virt, alias);
      EnrolRepeats(s.virt, t.virt, alias);
    }
  }

  lemma NamedOk(d: Device, number: U32)
    requires Fits(d)
    ensures var t := Named(d, number);
      t.busnum == BUS_VIRTUAL && t.devnum == number && Expected(t.busid) == BusidOf('2', number) && Fits(t)
  {
    PrintedMatches(d.busid, '2', number);
  }

  lemma EnrolNumbers(virt: seq<Device>, virt': seq<Device>, alias: nat)
    requires VirtualOk(virt) && |virt'| == |virt| + 1 <= VIRTUAL_MAX
    requires var x := virt'[|virt|];
      x.busnum == BUS_VIRTUAL && x.devnum == |virt| + 1 && Expected(x.busid) == BusidOf('2', x.devnum) && Fits(x)
    requires forall i | 0 <= i < |virt| :: virt'[i] == if virt[i].devnum == alias then virt'[|virt|] else virt[i]
    ensures VirtualOk(virt')
  {
    hide BusidOf, Fits;
  }

  lemma EnrolRepeats(virt: seq<Device>, virt': seq<Device>, alias: nat)
    requires VirtualOk(virt) && |virt'| == |virt| + 1 && virt'[|virt|].devnum == |virt| + 1
    requires forall i | 0 <= i < |virt| :: virt'[i] == if virt[i].devnum == alias then virt'[|virt|] else virt[i]
    ensures Repeats(virt') <==> Repeats(virt) || Registered(virt, alias)
  {
    hide BusidOf, Fits;
    var n := |virt|;
    if Registered(virt, alias) {
      var i :| 0 <= i < n && virt[i].devnum == alias;
      assert virt'[i].devnum == virt'[n].devnum;
    } else if Repeats(virt) {
      var i, j :| 0 <= i < j < n && virt[i].devnum == virt[j].devnum;
      assert virt'[i].devnum == virt'[j].devnum;
    }
  }

  lemma StepInv(s: State, e: Event)
    requires Inv(s) && EventOk(e)
    ensures Inv(Step(s, e))
  {
    hide TableOk, HandlesOk, VirtualOk, MakeDevice, Place, Enrol, Repeats, Held;
    match e
    case NotOpened =>
    case Register(d, alias) =>
      EnrolKeeps(s, d, alias);
      EnrolOnlyVirtual(s, d, alias);
    case Detach(hdl) =>
      var i := Find(s.slots, ByHandle(hdl));
      if i < |s.slots| { CloseSlotKeeps(s, i, -1); }
    case Attach(desc, info, config) =>
      OpenKeeps(s);
      var h, t := s.opens, s.(opens := s.opens + 1);
      if desc.Some? && info.Some? && !IsHub(MakeDevice(desc.value, info.value, config)) {
        var d := MakeDevice(desc.value, info.value, config);
        MadeOk(desc.value, info.value, config, h, t.opens);
        PlaceKeeps(t, h, d);
        PlaceOnlySlots(t, h, d);
      } else {
        CloseLooseKeeps(t, h);
      }
  }

  lemma MadeOk(desc: UsbDesc, info: Info, config: Option<seq<Byte>>, h: nat, opens: nat)
    requires h < opens
    ensures SlotOk(Used(h, MakeDevice(desc, info, config)), opens)
  {}

  lemma EnrolOnlyVirtual(s: State, d: Device, alias: nat)
    ensures var t := Enrol(s, d, alias); t == s.(virt := t.virt, twice := t.twice)
    ensures TableOk(s.slots, s.opens) && HandlesOk(s, -1) ==>
      TableOk(Enrol(s, d, alias).slots, s.opens) && HandlesOk(Enrol(s, d, alias), -1)
  {}

  lemma PlaceOnlySlots(s: State, h: nat, d: Device)
    ensures var t := Place(s, h, d); t.opens == s.opens && t.virt == s.virt && t.twice == s.twice
  {}

  lemma {:induction false} RunInv(run: seq<State>, events: seq<Event>, n: nat)
    requires IsRun(run, events) && n < |run|
    ensures Inv(run[n])
  {
    hide Step, EventOk;
    if n == 0 {
      InitInv(run[0]);
    } else {
      RunInv(run, events, n - 1);
      StepInv(run[n - 1], events[n - 1]);
    }
  }

  lemma InitInv(s: State)
    requires Init(s)
    ensures Inv(s)
  {}

  // ---------------------------------------------------------------------------------------
  // What the directory promises

  /** Every opened handle is in exactly one slot in use and has not been closed, or is in none and
      has been closed exactly once. */
  lemma HandlesConserved(run: seq<State>, events: seq<Event>, n: nat, h: nat)
    requires IsRun(run, events) && n < |run|
    ensures var s := run[n];
      && (h < s.opens && Held(s.slots, h) ==> s.closed[h] == 0)
      && (h < s.opens && !Held(s.slots, h) ==> s.closed[h] == 1)
      && (h >= s.opens ==> !Held(s.slots, h) && s.closed[h] == 0)
      && (forall i, j | 0 <= i < j < |s.slots| :: !(Hit(s.slots[i], ByHandle(h)) && Hit(s.slots[j], ByHandle(h))))
  {
    RunInv(run, events, n);
    var s := run[n];
    assert s.closed[h] == if h < s.opens && !Held(s.slots, h) then 1 else 0;
    forall i | 0 <= i < |s.slots| ensures SlotOk(s.slots[i], s.opens) {}
    forall i, j | 0 <= i < j < |s.slots| ensures !(Hit(s.slots[i], ByHandle(h)) && Hit(s.slots[j], ByHandle(h))) {
      assert Apart(s.slots[i], s.slots[j]);
    }
  }

  function Exported(slots: seq<Slot>): seq<Device> {
    if slots == [] then [] else (if slots[0].Used? then [slots[0].device] else []) + Exported(slots[1..])
  }

  /** usb_backend_get_devices: the slots in use, then the virtual devices. */
  function Listing(s: State): seq<Device> { Exported(s.slots) + s.virt }

  /** The first virtual device that a key matches, or |virt|. */
  function FindVirtual(virt: seq<Device>, key: Busid): (i: nat)
    ensures i <= |virt| && (i < |virt| ==> Matches(key, virt[i].busid))
    ensures forall k | 0 <= k < i :: !Matches(key, virt[k].busid)
  {
    if virt == [] || Matches(key, virt[0].busid) then 0 else 1 + FindVirtual(virt[1..], key)
  }

  /** usb_backend_get_device_by_busid */
  function Lookup(s: State, key: Busid): Option<Device> {
    var i := Find(s.slots, ByBusid(key));
    if i < |s.slots| then Some(s.slots[i].device)
    else
      var j := FindVirtual(s.virt, key);
      if j < |s.virt| then Some(s.virt[j]) else None
  }

  lemma {:induction false} ExportedAt(slots: seq<Slot>, k: nat) returns (i: nat)
    requires k < |Exported(slots)|
    ensures i < |slots| && slots[i].Used? && slots[i].device == Exported(slots)[k]
    ensures k == |Exported(slots[..i])|
  {
    var head: seq<Device> := if slots[0].Used? then [slots[0].device] else [];
    if k < |head| {
      i := 0;
      assert slots[..0] == [];
    } else {
      i := ExportedAt(slots[1..], k - |head|);
      i := i + 1;
      assert slots[..i][1..] == slots[1..][..i - 1] && slots[..i][0] == slots[0];
    }
  }

  lemma {:induction false} ExportedHas(slots: seq<Slot>, i: nat)
    requires i < |slots| && slots[i].Used?
    ensures slots[i].device in Exported(slots)
  {
    if i > 0 { ExportedHas(slots[1..], i - 1); }
  }

  /** A physical device in the listing has its own bus ID; a virtual one is looked up under a key
      that cannot be mistaken for it. */
  lemma ListedUnder(s: State, k: nat)
    requires Inv(s) && k < |Listing(s)|
    ensures var d := Listing(s)[k]; var physical := k < |Exported(s.slots)|;
      && Expected(d.busid) == BusidOf(if physical then '1' else '2', d.devnum)
      && (physical ==> d.busid == BusidOf('1', d.devnum))
  {
    hide BusidOf, Expected;
    var d := Listing(s)[k];
    if k < |Exported(s.slots)| {
      var i := ExportedAt(s.slots, k);
      assert SlotOk(s.slots[i], s.opens);
      MatchesItself('1', d.devnum);
    } else {
      assert d == s.virt[k - |Exported(s.slots)|];
    }
  }

  /** Of the devices listed, no two have one bus ID, exactly as long as no virtual device object
      has been registered twice. */
  lemma ListedOnce(run: seq<State>, events: seq<Event>, n: nat)
    requires IsRun(run, events) && n < |run|
    ensures (forall j, k | 0 <= j < k < |Listing(run[n])| :: Listing(run[n])[j].busid != Listing(run[n])[k].busid)
      <==> !run[n].twice
  {
    RunInv(run, events, n);
    var s := run[n];
    hide Inv, Listing, Repeats;
    if s.twice {
      var j, k := TwiceListed(s);
      assert Listing(s)[j].busid == Listing(s)[k].busid;
    } else {
      forall j, k | 0 <= j < k < |Listing(s)| ensures Listing(s)[j].busid != Listing(s)[k].busid {
        ListedApart(s, j, k);
      }
    }
  }

  lemma TwiceListed(s: State) returns (j: nat, k: nat)
    requires Inv(s) && s.twice
    ensures j < k < |Listing(s)| && Listing(s)[j].busid == Listing(s)[k].busid
  {
    hide BusidOf, Fits, TableOk, HandlesOk, Exported;
    var a, b :| 0 <= a < b < |s.virt| && s.virt[a].devnum == s.virt[b].devnum;
    var n := |Exported(s.slots)|;
    j, k := n + a, n + b;
    assert Listing(s)[j] == s.virt[a] && Listing(s)[k] == s.virt[b];
  }

  lemma ListedApart(s: State, j: nat, k: nat)
    requires Inv(s) && !s.twice && j < k < |Listing(s)|
    ensures Listing(s)[j].busid != Listing(s)[k].busid
  {
    hide BusidOf, Expected, Fits;
    var a, b, n := Listing(s)[j], Listing(s)[k], |Exported(s.slots)|;
    ListedUnder(s, j);
    ListedUnder(s, k);
    if a.busid == b.busid {
      BusidInjective(if j < n then '1' else '2', a.devnum, if k < n then '1' else '2', b.devnum);
      if k < n {
        var i := ExportedAt(s.slots, j);
        var i' := ExportedAt(s.slots, k);
        SamePlace(s.slots, i, i');
      }
    }
  }

  lemma SamePlace(slots: seq<Slot>, i: nat, j: nat)
    requires i < |slots| && j < |slots| && slots[i].Used? && slots[j].Used?
    requires forall a, b | 0 <= a < b < |slots| :: Apart(slots[a], slots[b])
    requires slots[i].device.devnum == slots[j].device.devnum
    ensures i == j
  {
    assert Apart(slots[i], slots[j]) || i >= j;
    assert Apart(slots[j], slots[i]) || j >= i;
  }

  /** make_devid: 32 bits of busnum << 16 and the low 16 bits of devnum. */
  function Devid(d: Device): U32 {
    (d.busnum % 0x1_0000) * 0x1_0000 + d.devnum % 0x1_0000
  }

  /** A device ID that an import hands out belongs to no device listed under another bus ID. */
  lemma DevidTellsApart(run: seq<State>, events: seq<Event>, n: nat, j: nat, k: nat)
    requires IsRun(run, events) && n < |run| && j < |Listing(run[n])| && k < |Listing(run[n])|
    ensures
      var listing := Listing(run[n]);
      Devid(listing[j]) == Devid(listing[k]) <==> listing[j].busid == listing[k].busid
  {
    RunInv(run, events, n);
    hide IsRun, Inv, Listing, BusidOf, Expected;
    ListedNumbers(run[n], j);
    ListedNumbers(run[n], k);
    var a, b := Listing(run[n])[j], Listing(run[n])[k];
    SmallNumbers(a, b);
    hide Devid;
    if a.busid == b.busid { BusidInjective(BusOf(a), a.devnum, BusOf(b), b.devnum); }
    if Devid(a) == Devid(b) && a.busnum == BUS_VIRTUAL { SameNumber(run[n], a, b); }
  }

  lemma SmallNumbers(a: Device, b: Device)
    requires a.devnum < 256 && b.devnum < 256 && a.busnum < 256 && b.busnum < 256
    ensures Devid(a) == Devid(b) <==> a.busnum == b.busnum && a.devnum == b.devnum
  {}

  function BusOf(d: Device): char { if d.busnum == BUS_USB then '1' else '2' }

  lemma ListedNumbers(s: State, k: nat)
    requires Inv(s) && k < |Listing(s)|
    ensures var d := Listing(s)[k];
      && d.busnum in {BUS_USB, BUS_VIRTUAL} && d.devnum < 256
      && Expected(d.busid) == BusidOf(BusOf(d), d.devnum)
      && (d.busnum == BUS_USB ==> d.busid == BusidOf('1', d.devnum))
      && (d.busnum == BUS_VIRTUAL ==> d in s.virt)
  {
    hide BusidOf, Fits, Expected;
    if k < |Exported(s.slots)| {
      var i := ExportedAt(s.slots, k);
      assert SlotOk(s.slots[i], s.opens);
      MatchesItself('1', s.slots[i].device.devnum);
    } else {
      assert Listing(s)[k] == s.virt[k - |Exported(s.slots)|];
    }
  }

  lemma SameNumber(s: State, a: Device, b: Device)
    requires Inv(s) && a in s.virt && b in s.virt && a.devnum == b.devnum
    ensures a == b
  {}

  /** Looking a key up finds a device exactly when that device is listed and the key is the text
      of its bus ID, zeroed behind. */
  lemma LookupAgrees(run: seq<State>, events: seq<Event>, n: nat, key: Busid, d: Device)
    requires IsRun(run, events) && n < |run|
    ensures Lookup(run[n], key) == Some(d) <==> d in Listing(run[n]) && Expected(d.busid) == key
  {
    RunInv(run, events, n);
    var s := run[n];
    hide Inv, Lookup, Listing;
    if Lookup(s, key) == Some(d) { FoundIsListed(s, key, d); }
    if d in Listing(s) && Expected(d.busid) == key {
      var k :| 0 <= k < |Listing(s)| && Listing(s)[k] == d;
      ListedIsFound(s, k);
    }
  }

  lemma FoundIsListed(s: State, key: Busid, d: Device)
    requires Inv(s) && Lookup(s, key) == Some(d)
    ensures d in Listing(s) && Expected(d.busid) == key
  {
    hide BusidOf, Expected, Inv;
    var i, n := Find(s.slots, ByBusid(key)), |Exported(s.slots)|;
    var k: nat;
    if i < |s.slots| {
      ExportedHas(s.slots, i);
      k :| 0 <= k < n && Exported(s.slots)[k] == d;
    } else {
      k := n + FindVirtual(s.virt, key);
    }
    assert Listing(s)[k] == d && Matches(key, d.busid);
    ListedUnder(s, k);
  }

  lemma ListedIsFound(s: State, k: nat)
    requires Inv(s) && k < |Listing(s)|
    ensures Lookup(s, Expected(Listing(s)[k].busid)) == Some(Listing(s)[k])
  {
    hide BusidOf, Expected, Fits;
    var d, n := Listing(s)[k], |Exported(s.slots)|;
    var key := Expected(d.busid);
    ListedUnder(s, k);
    var i := Find(s.slots, ByBusid(key));
    if i < |s.slots| {
      var e := s.slots[i].device;
      assert SlotOk(s.slots[i], s.opens) && Matches(key, e.busid);
      MatchesItself('1', e.devnum);
      BusidInjective(if k < n then '1' else '2', d.devnum, '1', e.devnum);
      var at := ExportedAt(s.slots, k);
      SamePlace(s.slots, i, at);
    } else {
      if k < n {
        var at := ExportedAt(s.slots, k);
        assert false;
      }
      var j := FindVirtual(s.virt, key);
      assert s.virt[k - n] == d && Matches(key, d.busid);
      var e := s.virt[j];
      BusidInjective('2', d.devnum, '2', e.devnum);
    }
  }

  /** A listed device is found under the very field it is listed with exactly when that field is
      clean, as a physical device's always is and a virtual one's is if it was zeroed. */
  lemma FoundAsListedExactly(run: seq<State>, events: seq<Event>, n: nat, k: nat)
    requires IsRun(run, events) && n < |run| && k < |Listing(run[n])|
    ensures var d := Listing(run[n])[k];
      && (Lookup(run[n], d.busid) == Some(d) <==> Clean(d.busid))
      && (d.busnum == BUS_USB ==> Clean(d.busid))
  {
    RunInv(run, events, n);
    hide IsRun, Inv, Lookup, Listing, BusidOf, Expected, Clean;
    var d := Listing(run[n])[k];
    LookupAgrees(run, events, n, d.busid, d);
    OwnKeyExactly(d.busid);
    ListedNumbers(run[n], k);
    ExpectedEnds(d.busid, BusOf(d), d.devnum);
    if d.busnum == BUS_USB { MatchesItself('1', d.devnum); }
  }

  lemma ExpectedEnds(stored: Busid, bus: char, n: nat)
    requires Bus(bus) && n < 0x1_0000_0000 && Expected(stored) == BusidOf(bus, n)
    ensures StrLen(stored) < BUSID
  {
    hide Name;
    var n' := |Name(bus, n)|;
    NameFits(bus, n);
    assert BusidOf(bus, n)[n'] == 0;
    assert Expected(stored)[n'] == stored[n'] || StrLen(stored) < BUSID;
  }

  /** A device that is attached, is no hub and has its descriptors is listed afterwards, unless
      every slot is taken by a device of another address. */
  lemma AttachLists(s: State, e: Event)
    requires Inv(s) && e.Attach? && e.desc.Some? && e.info.Some?
    ensures var d := MakeDevice(e.desc.value, e.info.value, e.config);
      (exists i | 0 <= i < |s.slots| :: Step(s, e).slots[i] == Used(s.opens, d)) <==>
      !IsHub(d) && exists i | 0 <= i < |s.slots| :: s.slots[i].Free? || s.slots[i].device.devnum == d.devnum
  {
    hide MakeDevice, IsHub, BusidOf;
    var d := MakeDevice(e.desc.value, e.info.value, e.config);
    var t := s.(opens := s.opens + 1);
    forall i | 0 <= i < |s.slots| ensures s.slots[i] != Used(s.opens, d) { assert SlotOk(s.slots[i], s.opens); }
    if !IsHub(d) {
      var prev := Find(t.slots, ByDevnum(d.devnum));
      var u := if prev < |t.slots| then CloseSlot(t, prev) else t;
      var free := Find(u.slots, AnyFree);
      if free < |u.slots| {
        assert Step(s, e).slots[free] == Used(s.opens, d);
        assert s.slots[free].Free? || (free == prev && s.slots[prev].device.devnum == d.devnum);
      } else {
        assert Step(s, e).slots == u.slots;
        assert prev < |t.slots| ==> Hit(u.slots[prev], AnyFree);
        forall i | 0 <= i < |s.slots| ensures !s.slots[i].Free? && s.slots[i].device.devnum != d.devnum {
          assert !Hit(u.slots[i], AnyFree);
          assert !Hit(t.slots[i], ByDevnum(d.devnum));
        }
      }
    } else {
      assert Step(s, e).slots == s.slots;
    }
  }

  /** A detach drops the device with that handle, closes the handle, and leaves the rest alone. */
  lemma DetachDrops(s: State, h: nat)
    requires Inv(s)
    ensures var t := Step(s, Detach(h));
      && (forall g: nat :: Held(t.slots, g) <==> Held(s.slots, g) && g != h)
      && (forall i | 0 <= i < |s.slots| :: t.slots[i] == if Hit(s.slots[i], ByHandle(h)) then Free else s.slots[i])
      && t.closed == s.closed + (if Held(s.slots, h) then multiset{h} else multiset{})
  {
    hide BusidOf, Fits;
    var t, i := Step(s, Detach(h)), Find(s.slots, ByHandle(h));
    if i < |s.slots| {
      forall g: nat ensures Held(t.slots, g) <==> Held(s.slots, g) && g != h { HeldAfterClose(s.slots, i, g); }
      forall j | 0 <= j < |s.slots| ensures t.slots[j] == if Hit(s.slots[j], ByHandle(h)) then Free else s.slots[j] {
        assert Apart(s.slots[j], s.slots[i]) || j >= i;
        assert Apart(s.slots[i], s.slots[j]) || i >= j;
      }
    }
  }
}
