/** The code that keeps the device slots and the virtual registry, and answers from them. */
module DeviceDirectory {
  import opened Bytes
  import opened Wrappers
  import opened UsbDevice
  import opened BusIds
  import opened Descriptors
  import opened DeviceTable
  import opened DeviceRecords
  import UsbipWire
  import UsbipSocket

  /** What the host library knows about the device that is to be opened. */
  datatype Plugged = Plugged(opens: bool, desc: Option<UsbDesc>, info: Option<Info>, config: Option<seq<Byte>>)

  /** The event that a device is, once all that is asked about it has been asked. */
  function EventFor(p: Plugged): Event {
    if !p.opens then NotOpened else Attach(p.desc, p.info, p.config)
  }

  /** The USB host library: handles are new at every open, and closing one is recorded. */
  class Host {
    var plugged: Plugged
    var opens: nat
    ghost var closed: multiset<nat>

    constructor (plugged: Plugged)
      ensures opens == 0 && closed == multiset{} && this.plugged == plugged
    {
      opens, closed, this.plugged := 0, multiset{}, plugged;
    }

    method Open(address: Byte) returns (hdl: Option<nat>)
      modifies this`opens
      ensures hdl == if plugged.opens then Some(old(opens)) else None
      ensures opens == old(opens) + if plugged.opens then 1 else 0
    {
      if !plugged.opens { return None; }
      hdl := Some(opens);
      opens := opens + 1;
    }

    method Close(hdl: nat)
      modifies this`closed
      ensures closed == old(closed) + multiset{hdl}
    {
      closed := closed + multiset{hdl};
    }

    method DeviceDescriptor(hdl: nat) returns (desc: Option<UsbDesc>)
      ensures desc == plugged.desc
    {
      desc := plugged.desc;
    }

    method DeviceInfo(hdl: nat) returns (info: Option<Info>)
      ensures info == plugged.info
    {
      info := plugged.info;
    }

    /** The active configuration: its bytes, and the total length it declares. */
    method ConfigDescriptor(hdl: nat) returns (raw: array?<Byte>, totalLen: nat)
      ensures raw == null <==> plugged.config.None?
      ensures raw != null ==> totalLen <= raw.Length && fresh(raw) && raw[..totalLen] == plugged.config.value
    {
      if plugged.config.None? { return null, 0; }
      var bytes := plugged.config.value;
      raw := new Byte[|bytes|](k requires 0 <= k < |bytes| => bytes[k]);
      totalLen := |bytes|;
    }
  }

  /** virtual_device_t; a driver without operations cannot be registered. */
  class VirtualDevice {
    const hasOps: bool
    var desc: Device

    constructor (hasOps: bool, desc: Device)
      ensures this.hasOps == hasOps && this.desc == desc
    {
      this.hasOps, this.desc := hasOps, desc;
    }
  }

  function Descs(objs: seq<VirtualDevice>): (ds: seq<Device>)
    reads objs
    ensures |ds| == |objs| && forall i | 0 <= i < |objs| :: ds[i] == objs[i].desc
  {
    if objs == [] then [] else Descs(objs[..|objs| - 1]) + [objs[|objs| - 1].desc]
  }

  method ParseConfig(raw: array?<Byte>, totalLen: nat) returns (interfaces: seq<Interface>, endpoints: seq<Endpoint>)
    requires raw != null ==> totalLen <= raw.Length
    ensures var ds := if raw != null then Split(raw[..totalLen]) else [];
      interfaces == First(MAX_INTERFACES, InterfacesIn(ds)) && endpoints == First(MAX_ENDPOINTS, EndpointsIn(ds))
  {
    hide Split;
    if raw == null { return [], []; }
    var ifs := new Interface[MAX_INTERFACES](_ => Interface(0, 0, 0));
    var eps := new Endpoint[MAX_ENDPOINTS](_ => Endpoint(0, 0, 0, 0));
    var m, n := ParseDescriptors(raw, totalLen, ifs, eps);
    return ifs[..m], eps[..n];
  }

  method Assemble(desc: UsbDesc, info: Info, raw: array?<Byte>, totalLen: nat) returns (d: Device)
    requires raw != null ==> totalLen <= raw.Length
    ensures d == MakeDevice(desc, info, if raw != null then Some(raw[..totalLen]) else None)
  {
    hide Field, Split, InterfacesIn, EndpointsIn;
    var ifs, eps := ParseConfig(raw, totalLen);
    d := Device(Field("/esp-usb-host/" + Name('1', info.addr), PATH), BusidOf('1', info.addr),
      BUS_USB, info.addr, SpeedCode(info.speed),
      desc.idVendor, desc.idProduct, desc.bcdDevice, desc.cls, desc.subclass, desc.protocol,
      info.configuration, desc.numConfigurations, ifs, eps);
  }

  /** is_hub_device */
  method HubCheck(d: Device) returns (hub: bool)
    ensures hub == IsHub(d)
  {
    if d.cls == CLASS_HUB { return true; }
    var i := 0;
    while i < |d.interfaces|
      invariant 0 <= i <= |d.interfaces| && forall k | 0 <= k < i :: d.interfaces[k].cls != CLASS_HUB
    {
      if d.interfaces[i].cls == CLASS_HUB { return true; }
      i := i + 1;
    }
    return false;
  }

  /** The part of export_new_device before the mutex is taken: the device to export, if there is
      one, with its handle, or else that handle closed again. */
  method Probe(host: Host, address: Byte) returns (found: Option<(nat, Device)>)
    modifies host`opens, host`closed
    ensures var p := host.plugged; var known := p.opens && p.desc.Some? && p.info.Some?;
      && host.opens == old(host.opens) + (if p.opens then 1 else 0)
      && host.closed ==
           (if p.opens && found.None? then old(host.closed) + multiset{old(host.opens)} else old(host.closed))
      && (found.Some? <==> known && !IsHub(MakeDevice(p.desc.value, p.info.value, p.config)))
      && (found.Some? ==> found.value == (old(host.opens), MakeDevice(p.desc.value, p.info.value, p.config)))
    ensures var p := host.plugged;
      && (found.Some? <==> p.opens && p.desc.Some? && p.info.Some? && !TellsHub(p.desc.value, p.config))
      && (found.Some? ==>
            && Reports(found.value.1, p.desc.value, p.info.value)
            && found.value.1.interfaces == Told(p.config) && found.value.1.endpoints == ToldEndpoints(p.config))
  {
    hide MakeDevice, IsHub, TellsHub, Reports, Told, ToldEndpoints;
    var hdl := host.Open(address);
    if hdl.None? { return None; }
    var desc := host.DeviceDescriptor(hdl.value);
    if desc.None? {
      host.Close(hdl.value);
      return None;
    }
    var info := host.DeviceInfo(hdl.value);
    if info.None? {
      host.Close(hdl.value);
      return None;
    }
    var raw, totalLen := host.ConfigDescriptor(hdl.value);
    var d := Assemble(desc.value, info.value, raw, totalLen);
    assert d == MakeDevice(desc.value, info.value, host.plugged.config);
    MadeReports(desc.value, info.value, host.plugged.config);
    var hub := HubCheck(d);
    if hub {
      host.Close(hdl.value);
      return None;
    }
    return Some((hdl.value, d));
  }

  /** Entries with one number are one object. */
  ghost predicate OneObject(objs: seq<VirtualDevice>, virt: seq<Device>)
    requires |objs| == |virt|
  {
    forall i, j | 0 <= i < |objs| && 0 <= j < |objs| && virt[i].devnum == virt[j].devnum :: objs[i] == objs[j]
  }

  /** An object's own number tells its entries. */
  lemma AliasIs(s: State, alias: nat, objs: seq<VirtualDevice>, dev: VirtualDevice)
    requires |objs| == |s.virt| && OneObject(objs, s.virt)
    requires forall i | 0 <= i < |s.virt| :: 1 <= s.virt[i].devnum
    requires forall i | 0 <= i < |objs| && objs[i] == dev :: s.virt[i].devnum == alias
    requires dev !in objs ==> alias == 0
    ensures forall i | 0 <= i < |s.virt| :: s.virt[i].devnum == alias <==> objs[i] == dev
  {}

  lemma OneObjectKept(s: State, d: Device, alias: nat, objs: seq<VirtualDevice>, dev: VirtualDevice)
    requires |objs| == |s.virt| < VIRTUAL_MAX && OneObject(objs, s.virt)
    requires forall i | 0 <= i < |s.virt| :: s.virt[i].devnum <= |s.virt|
    requires forall i | 0 <= i < |s.virt| :: s.virt[i].devnum == alias <==> objs[i] == dev
    ensures OneObject(objs + [dev], Enrol(s, d, alias).virt)
  {
    hide BusidOf, Field, Name, Printed;
    var objs', virt' := objs + [dev], Enrol(s, d, alias).virt;
    forall i, j | 0 <= i < |objs'| && 0 <= j < |objs'| && virt'[i].devnum == virt'[j].devnum
      ensures objs'[i] == objs'[j]
    {
      assert objs'[i] != dev ==> virt'[i] == s.virt[i];
      assert objs'[j] != dev ==> virt'[j] == s.virt[j];
    }
  }

  /** Assigns a bus ID and a path on the virtual bus. */
  method Rename(dev: VirtualDevice, devnum: nat)
    requires 0 < devnum <= VIRTUAL_MAX
    modifies dev
    ensures dev.desc == Named(old(dev.desc), devnum) && dev.desc.devnum == devnum
  {
    hide Printed, Name;
    OneDigit(devnum);
    dev.desc := dev.desc.(busnum := BUS_VIRTUAL, devnum := devnum,
      busid := Printed(dev.desc.busid, Name('2', devnum)),
      path := Printed(dev.desc.path, "/esp-virtual/" + Name('2', devnum)));
  }

  class Directory {
    const host: Host
    const devices: array<Slot>
    const registry: array<VirtualDevice?>
    var count: nat
    ghost var objs: seq<VirtualDevice>
    ghost var twice: bool

    ghost function Now(): State
      reads this, host, devices, objs
    {
      State(devices[..], host.opens, host.closed, Descs(objs), twice)
    }

    ghost predicate Shape()
      reads this, registry, objs
    {
      && registry.Length == VIRTUAL_MAX && count == |objs| <= VIRTUAL_MAX
      && (forall i | 0 <= i < count :: registry[i] == objs[i])
      && OneObject(objs, Descs(objs))
    }

    ghost predicate Valid()
      reads this, host, devices, registry, objs
    {
      Shape() && Inv(Now())
    }

    constructor (host: Host, maxDevices: nat)
      requires host.opens == 0 && host.closed == multiset{}
      ensures Valid() && Init(Now()) && this.host == host && devices.Length == maxDevices
      ensures fresh(devices) && fresh(registry)
    {
      this.host := host;
      devices := new Slot[maxDevices](_ => Free);
      registry := new VirtualDevice?[VIRTUAL_MAX](_ => null);
      count, objs, twice := 0, [], false;
      new;
      InitInv(Now());
    }

    /** The loop of the find functions: the first slot that answers, or the length. */
    method FindSlot(q: Query) returns (i: nat)
      ensures i == Find(devices[..], q)
    {
      i := 0;
      while i < devices.Length && !Hit(devices[i], q)
        invariant i <= devices.Length && forall k | 0 <= k < i :: !Hit(devices[k], q)
      {
        i := i + 1;
      }
      FindIs(devices[..], q, i);
    }

    /** close_slot_locked */
    method CloseSlotLocked(i: nat)
      requires i < devices.Length
      modifies devices, host`closed
      ensures Now() == CloseSlot(old(Now()), i)
    {
      if devices[i].Free? { return; }
      host.Close(devices[i].hdl);
      devices[i] := Free;
    }

    /** export_new_device */
    method ExportNewDevice(address: Byte)
      requires Valid()
      modifies devices, host`opens, host`closed
      ensures Now() == Step(old(Now()), EventFor(host.plugged)) && Valid()
    {
      hide Inv, MakeDevice, IsHub, Place, Descs;
      ghost var before := Now();
      var found := Probe(host, address);
      StepInv(before, EventFor(host.plugged));
      if found.Some? { PlaceDevice(found.value.0, found.value.1); }
    }

    /** The part of export_new_device that holds the mutex. */
    method PlaceDevice(hdl: nat, d: Device)
      modifies devices, host`closed
      ensures Now() == Place(old(Now()), hdl, d)
    {
      hide Find, Descs, Hit, CloseSlot;
      var existing := FindSlot(ByDevnum(d.devnum));
      if existing < devices.Length { CloseSlotLocked(existing); }
      ghost var t := Now();
      var free := FindSlot(AnyFree);
      if free == devices.Length {
        host.Close(hdl);
        assert Now() == CloseHandle(t, hdl);
        return;
      }
      devices[free] := Used(hdl, d);
      assert Now() == t.(slots := t.slots[free := Used(hdl, d)]);
    }

    /** remove_gone_device */
    method RemoveGoneDevice(hdl: nat)
      requires Valid()
      modifies devices, host`closed
      ensures Now() == Step(old(Now()), Detach(hdl)) && Valid()
    {
      hide Inv;
      StepInv(Now(), Detach(hdl));
      var slot := FindSlot(ByHandle(hdl));
      if slot < devices.Length { CloseSlotLocked(slot); }
    }

    /** The number that an object carries in the registry, or 0. */
    ghost function AliasOf(dev: VirtualDevice): nat
      reads this, dev
    {
      if dev in objs then dev.desc.devnum else 0
    }

    /** virtual_device_register */
    method Register(dev: VirtualDevice?) returns (ok: bool)
      requires Valid() && (dev != null ==> Fits(dev.desc))
      modifies this`count, this`objs, this`twice, registry, dev
      ensures ok <==> dev != null && dev.hasOps && old(count) < VIRTUAL_MAX
      ensures ok ==> Now() == Step(old(Now()), DeviceTable.Register(old(dev.desc), old(AliasOf(dev))))
      ensures !ok ==> Now() == old(Now())
      ensures Valid()
    {
      hide Inv, Descs, Named, Fits, Registered, OneObject;
      if dev == null || !dev.hasOps { return false; }
      if count >= VIRTUAL_MAX { return false; }
      ghost var before, d, alias := Now(), dev.desc, AliasOf(dev);
      ghost var e := DeviceTable.Register(d, alias);
      var devnum := count + 1;
      NumbersInUse(before);
      AliasIs(before, alias, objs, dev);
      OneObjectKept(before, d, alias, objs, dev);
      StepInv(before, e);
      Rename(dev, devnum);
      registry[count] := dev;
      twice := twice || Registered(before.virt, alias);
      objs := objs + [dev];
      count := count + 1;
      EnrolIs(before, d, alias, objs);
      assert Now() == Step(before, e);
      assert Shape();
      return true;
    }

    /** usb_backend_get_devices: as much of the listing as there is room for. */
    method GetDevices(out: array<Device>, max: nat) returns (copied: nat)
      requires Valid() && max <= out.Length
      modifies out
      ensures copied <= max && out[..copied] == First(max, Listing(Now())) && Now() == old(Now())
    {
      hide Inv, Descs, Exported, OneObject;
      NoneExported();
      copied := 0;
      var i := 0;
      while i < devices.Length && copied < max
        invariant 0 <= i <= devices.Length && copied <= max && Now() == old(Now())
        invariant out[..copied] == Exported(devices[..i])
      {
        ExportedNext(devices[..], i);
        if devices[i].Used? {
          out[copied] := devices[i].device;
          copied := copied + 1;
        }
        i := i + 1;
      }
      ExportedPrefix(devices[..], i);
      assert devices[..devices.Length] == devices[..];
      ghost var here, virt := copied, Now().virt;
      if copied < max {
        copied := GetAllVirtual(out, copied, max - copied);
        assert out[..copied] == out[..here] + out[here..copied];
      }
      FirstOfBoth(max, Exported(devices[..]), virt, here, out[..copied]);
    }

    /** virtual_device_get_all, into the buffer from there on. */
    method GetAllVirtual(out: array<Device>, from: nat, max: nat) returns (end: nat)
      requires Valid() && from + max <= out.Length
      modifies out
      ensures from <= end <= out.Length && out[..from] == old(out[..from]) && Now() == old(Now())
      ensures out[from..end] == First(max, Now().virt)
    {
      hide Inv, Descs, Exported, OneObject;
      ghost var virt := Now().virt;
      end := from;
      var i := 0;
      while i < count && end - from < max
        invariant 0 <= i <= count && i <= max && end == from + i && Now() == old(Now()) && Shape()
        invariant out[..from] == old(out[..from]) && out[from..end] == virt[..i]
      {
        out[end] := registry[i].desc;
        end := end + 1;
        i := i + 1;
      }
    }

    /** virtual_device_find_by_busid: the place of the device in the registry, or the count. */
    method FindVirtualDevice(key: Busid) returns (i: nat)
      requires Valid()
      ensures i == FindVirtual(Now().virt, key) && |Now().virt| == count
    {
      hide Inv, Descs;
      i := 0;
      ghost var virt := Now().virt;
      while i < count && !Matches(key, registry[i].desc.busid)
        invariant 0 <= i <= count && forall k | 0 <= k < i :: !Matches(key, virt[k].busid)
      {
        i := i + 1;
      }
      FindVirtualIs(virt, key, i);
    }

    /** usb_backend_get_device_by_busid */
    method GetDeviceByBusid(key: Busid) returns (found: Option<Device>)
      requires Valid()
      ensures found == Lookup(Now(), key)
    {
      hide Inv, Descs, Find, FindVirtual;
      var slot := FindSlot(ByBusid(key));
      if slot < devices.Length { return Some(devices[slot].device); }
      var i := FindVirtualDevice(key);
      if i < count { return Some(registry[i].desc); }
      return None;
    }

    /** handle_devlist_request: given memory and a socket that holds, a client that reads the reply
        learns of every device. */
    method HandleDevlist(sock: UsbipSocket.Socket, memory: bool) returns (ok: bool)
      requires Valid() && devices.Length + VIRTUAL_MAX < 0x1_0000_0000
      modifies sock`sent, sock`failed
      ensures sock.failed == (old(sock.failed) || (memory && !ok)) && (ok ==> memory)
      ensures UsbipWire.AllFit(Listing(Now())) && |Listing(Now())| < 0x1_0000_0000
      ensures UsbipWire.Delivered(old(sock.sent), sock.sent, UsbipWire.DevlistReply(Listing(Now())), ok)
      ensures old(sock.sent) <= sock.sent
      ensures ok ==>
        UsbipWire.ReadDevlist(sock.sent[|old(sock.sent)|..]) == Some((UsbipWire.AllExported(Listing(Now())), []))
    {
      hide UsbipWire.ReadDevlist, Inv, Descs;
      ListingFits(Now());
      if !memory {
        NotEmpty(Listing(Now()));
        return false;
      }
      hide UsbipWire.DevlistReply;
      var max := devices.Length + VIRTUAL_MAX;
      var out := Blank(max);
      var n := GetDevices(out, max);
      ok := UsbipWire.SendDevlist(sock, out[..n]);
    }

    /** handle_import_request up to the URB stream: the device found, if any, is the one listed. */
    method HandleImport(sock: UsbipSocket.Socket, key: Busid) returns (ok: bool, found: Option<Device>)
      requires Valid()
      modifies sock`sent, sock`failed
      ensures sock.failed == (old(sock.failed) || !ok)
      ensures found == Lookup(Now(), key) && (found.Some? ==> Fits(found.value))
      ensures UsbipWire.Delivered(old(sock.sent), sock.sent, UsbipWire.ImportReply(found), ok)
    {
      hide Inv, UsbipWire.Delivered, UsbipWire.ImportReply, Lookup, Descs;
      found := GetDeviceByBusid(key);
      FoundFits(Now(), key);
      ok := UsbipWire.SendImport(sock, found);
    }
  }

  lemma NotEmpty(ds: seq<Device>)
    requires UsbipWire.AllFit(ds) && |ds| < 0x1_0000_0000
    ensures |UsbipWire.DevlistReply(ds)| > 0
  {}

  method Blank(n: nat) returns (out: array<Device>)
    ensures fresh(out) && out.Length == n
  {
    var d := Device(Zeros(PATH), Zeros(BUSID), 0, 0, 0, 0, 0, 0, 0, 0, 0, 0, 0, [], []);
    out := new Device[n](_ => d);
  }

  lemma NoneExported()
    ensures Exported([]) == []
  {}

  lemma {:induction false} ExportedNext(slots: seq<Slot>, i: nat)
    requires i < |slots|
    ensures Exported(slots[..i + 1]) == Exported(slots[..i]) + if slots[i].Used? then [slots[i].device] else []
  {
    if i == 0 {
      assert slots[..1] == [slots[0]] && slots[..1][1..] == [] && slots[..0] == [];
    } else {
      ExportedNext(slots[1..], i - 1);
      assert slots[..i][1..] == slots[1..][..i - 1] && slots[..i + 1][1..] == slots[1..][..i];
      assert slots[..i][0] == slots[0] && slots[..i + 1][0] == slots[0];
    }
  }

  lemma {:induction false} ExportedPrefix(slots: seq<Slot>, i: nat)
    requires i <= |slots|
    ensures Exported(slots[..i]) <= Exported(slots)
  {
    if i > 0 {
      ExportedPrefix(slots[1..], i - 1);
      assert slots[..i][1..] == slots[1..][..i - 1] && slots[..i][0] == slots[0];
    } else {
      assert slots[..0] == [];
    }
  }

  /** The listing cut to size is the physical devices cut to size, then what there is room for. */
  lemma FirstOfBoth(max: nat, listed: seq<Device>, virt: seq<Device>, here: nat, got: seq<Device>)
    requires here <= max
    requires if here < max then here == |listed| && got == listed + First(max - here, virt)
             else got == First(max, listed) && |listed| >= max
    ensures got == First(max, listed + virt)
  {}

  lemma FindVirtualIs(virt: seq<Device>, key: Busid, i: nat)
    requires i <= |virt| && (i < |virt| ==> Matches(key, virt[i].busid))
    requires forall k | 0 <= k < i :: !Matches(key, virt[k].busid)
    ensures FindVirtual(virt, key) == i
  {
    hide Matches;
  }

  lemma {:induction false} ExportedFits(slots: seq<Slot>)
    requires forall i | 0 <= i < |slots| :: slots[i].Used? ==> Fits(slots[i].device)
    ensures UsbipWire.AllFit(Exported(slots)) && |Exported(slots)| <= |slots|
  {
    if slots != [] { ExportedFits(slots[1..]); }
  }

  lemma ListingFits(s: State)
    requires Inv(s)
    ensures UsbipWire.AllFit(Listing(s)) && |Listing(s)| <= |s.slots| + VIRTUAL_MAX
  {
    hide BusidOf, Fits;
    forall i | 0 <= i < |s.slots| ensures s.slots[i].Used? ==> Fits(s.slots[i].device) {
      assert SlotOk(s.slots[i], s.opens);
    }
    ExportedFits(s.slots);
  }

  lemma FoundFits(s: State, key: Busid)
    requires Inv(s)
    ensures Lookup(s, key).Some? ==> Fits(Lookup(s, key).value)
  {
    hide BusidOf, Matches, Fits;
    var i := Find(s.slots, ByBusid(key));
    if i < |s.slots| { assert SlotOk(s.slots[i], s.opens); }
  }

  /** The registry after an object's descriptor has been named anew and the object appended. */
  lemma EnrolIs(s: State, d: Device, alias: nat, objs: seq<VirtualDevice>)
    requires |objs| == |s.virt| + 1 <= VIRTUAL_MAX
    requires objs[|s.virt|].desc == Named(d, |s.virt| + 1)
    requires forall i | 0 <= i < |s.virt| :: s.virt[i].devnum == alias <==> objs[i] == objs[|s.virt|]
    requires forall i | 0 <= i < |s.virt| && objs[i] != objs[|s.virt|] :: objs[i].desc == s.virt[i]
    ensures Enrol(s, d, alias) == s.(virt := Descs(objs), twice := s.twice || Registered(s.virt, alias))
  {
    hide Named, Descs;
  }

  lemma NumbersInUse(s: State)
    requires Inv(s)
    ensures forall i | 0 <= i < |s.virt| :: 1 <= s.virt[i].devnum <= |s.virt|
  {}

  lemma OneDigit(n: nat)
    requires n < 10
    ensures |Name('2', n)| == 3 && |"/esp-virtual/" + Name('2', n)| == 16
  {}
}
