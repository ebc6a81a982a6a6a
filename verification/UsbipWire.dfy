/** OP_REP_DEVLIST and OP_REP_IMPORT: what main/usbip_server.c puts on the wire for a device, and
    how a client takes it apart. */
module UsbipWire {
  import opened Bytes
  import opened UsbDevice
  import opened UsbipSocket
  import opened Wrappers

  const VERSION := 0x0111
  const REP_DEVLIST := 0x0005
  const REP_IMPORT := 0x0003
  const OP_COMMON: nat := 8
  const DEVICE: nat := 312
  const INTERFACE: nat := 4

  function OpCommon(code: U16, status: U32): seq<Byte> {
    Be16(VERSION) + Be16(code) + Be32(status)
  }

  /** fill_wire_device_desc */
  function DeviceDesc(d: Device): (s: seq<Byte>)
    requires Fits(d)
    ensures |s| == DEVICE
  {
    d.path + d.busid
    + Be32(d.busnum) + Be32(d.devnum) + Be32(d.speed)
    + Be16(d.idVendor) + Be16(d.idProduct) + Be16(d.bcdDevice)
    + [d.cls, d.subclass, d.protocol, d.configuration, d.numConfigurations, |d.interfaces|]
  }

  function InterfaceDesc(i: Interface): (s: seq<Byte>)
    ensures |s| == INTERFACE
  {
    [i.cls, i.subclass, i.protocol, 0]
  }

  function InterfaceDescs(interfaces: seq<Interface>): seq<Byte> {
    if interfaces == [] then [] else InterfaceDesc(interfaces[0]) + InterfaceDescs(interfaces[1..])
  }

  predicate AllFit(ds: seq<Device>) {
    forall d | d in ds :: Fits(d)
  }

  function DeviceList(ds: seq<Device>): seq<Byte>
    requires AllFit(ds)
  {
    if ds == [] then [] else DeviceDesc(ds[0]) + InterfaceDescs(ds[0].interfaces) + DeviceList(ds[1..])
  }

  function DevlistReply(ds: seq<Device>): seq<Byte>
    requires AllFit(ds) && |ds| < 0x1_0000_0000
  {
    OpCommon(REP_DEVLIST, 0) + Be32(|ds|) + DeviceList(ds)
  }

  /** An import reply has the device, but not its interfaces. */
  function ImportReply(found: Option<Device>): seq<Byte>
    requires found.Some? ==> Fits(found.value)
  {
    OpCommon(REP_IMPORT, if found.Some? then 0 else 1) + if found.Some? then DeviceDesc(found.value) else []
  }

  // ---------------------------------------------------------------------------------------
  // The client, with the numbers of the protocol

  /** What a reader makes of a byte string: a value and what is left, or not enough bytes. */
  type Parsed<T> = Option<(T, seq<Byte>)>

  function ReadDeviceDesc(s: seq<Byte>): Parsed<(Device, nat)> {
    if |s| < 312 then None
    else Some(((Device(
      s[0..256], s[256..288], Word32(s[288..292]), Word32(s[292..296]), Word32(s[296..300]),
      Word16(s[300..302]), Word16(s[302..304]), Word16(s[304..306]),
      s[306], s[307], s[308], s[309], s[310], [], []), s[311]), s[312..]))
  }

  function ReadInterfaces(s: seq<Byte>, n: nat): Parsed<seq<Interface>>
    decreases n
  {
    if n == 0 then Some(([], s))
    else if |s| < 4 then None
    else match ReadInterfaces(s[4..], n - 1)
      case None => None
      case Some(r) => Some(([Interface(s[0], s[1], s[2])] + r.0, r.1))
  }

  function ReadDevices(s: seq<Byte>, count: nat): Parsed<seq<Device>>
    decreases count
  {
    if count == 0 then Some(([], s))
    else match ReadDeviceDesc(s)
      case None => None
      case Some(d) =>
        match ReadInterfaces(d.1, d.0.1)
        case None => None
        case Some(faces) =>
          match ReadDevices(faces.1, count - 1)
          case None => None
          case Some(r) => Some(([d.0.0.(interfaces := faces.0)] + r.0, r.1))
  }

  /** op_common: the code and status, if the version is right. */
  function ReadOpCommon(s: seq<Byte>): Parsed<(U16, U32)> {
    if |s| < 8 || Word16(s[0..2]) != 0x0111 then None
    else Some(((Word16(s[2..4]), Word32(s[4..8])), s[8..]))
  }

  function ReadDevlist(s: seq<Byte>): Parsed<seq<Device>> {
    match ReadOpCommon(s)
    case None => None
    case Some(op) =>
      if op.0 != (0x0005, 0) || |op.1| < 4 then None
      else ReadDevices(op.1[4..], Word32(op.1[..4]))
  }

  function ReadImport(s: seq<Byte>): Parsed<Option<Device>> {
    match ReadOpCommon(s)
    case None => None
    case Some(op) =>
      if op.0.0 != 0x0003 then None
      else if op.0.1 != 0 then Some((None, op.1))
      else match ReadDeviceDesc(op.1) case None => None case Some(d) => Some((Some(d.0.0), d.1))
  }

  /** The fields of a device that DEVLIST carries: all but the endpoints. */
  function Exported(d: Device): Device { d.(endpoints := []) }

  function AllExported(ds: seq<Device>): seq<Device> { seq(|ds|, k requires 0 <= k < |ds| => Exported(ds[k])) }

  // ---------------------------------------------------------------------------------------
  // Round trips

  lemma OpCommonReadsBack(code: U16, status: U32, rest: seq<Byte>)
    ensures ReadOpCommon(OpCommon(code, status) + rest) == Some(((code, status), rest))
  {
    var s := OpCommon(code, status) + rest;
    Back16(VERSION);
    Back16(code);
    Back32(status);
    assert s[0..2] == Be16(VERSION) && s[2..4] == Be16(code) && s[4..8] == Be32(status) && s[8..] == rest;
  }

  lemma DeviceReadsBack(d: Device, rest: seq<Byte>)
    requires Fits(d)
    ensures ReadDeviceDesc(DeviceDesc(d) + rest)
      == Some(((d.(interfaces := [], endpoints := []), |d.interfaces|), rest))
  {
    hide Word16, Word32, Be16, Be32;
    var s := DeviceDesc(d) + rest;
    Back32(d.busnum);
    Back32(d.devnum);
    Back32(d.speed);
    Back16(d.idVendor);
    Back16(d.idProduct);
    Back16(d.bcdDevice);
    var tail: seq<Byte> := [d.cls, d.subclass, d.protocol, d.configuration, d.numConfigurations, |d.interfaces|];
    var words := Be32(d.busnum) + Be32(d.devnum) + Be32(d.speed);
    var halves := Be16(d.idVendor) + Be16(d.idProduct) + Be16(d.bcdDevice);
    assert s == d.path + d.busid + words + halves + tail + rest;
    assert s[0..256] == d.path && s[256..288] == d.busid && s[288..300] == words && s[300..306] == halves;
    assert s[288..292] == words[0..4] == Be32(d.busnum) && s[292..296] == words[4..8] == Be32(d.devnum);
    assert s[296..300] == words[8..12] == Be32(d.speed) && s[300..302] == halves[0..2] == Be16(d.idVendor);
    assert s[302..304] == halves[2..4] == Be16(d.idProduct) && s[304..306] == halves[4..6] == Be16(d.bcdDevice);
    assert s[306..312] == tail && s[312..] == rest;
    assert s[306] == tail[0] && s[307] == tail[1] && s[308] == tail[2] && s[309] == tail[3];
    assert s[310] == tail[4] && s[311] == tail[5];
  }

  lemma OneInterfaceReadsBack(face: Interface, more: seq<Byte>, faces: seq<Interface>, rest: seq<Byte>)
    requires ReadInterfaces(more, |faces|) == Some((faces, rest))
    ensures ReadInterfaces(InterfaceDesc(face) + more, |faces| + 1) == Some(([face] + faces, rest))
  {
    assert (InterfaceDesc(face) + more)[INTERFACE..] == more;
  }

  lemma {:induction false} InterfacesReadBack(faces: seq<Interface>, rest: seq<Byte>)
    ensures ReadInterfaces(InterfaceDescs(faces) + rest, |faces|) == Some((faces, rest))
  {
    hide InterfaceDesc;
    if faces == [] {
      assert InterfaceDescs(faces) + rest == rest;
    } else {
      var tail := InterfaceDescs(faces[1..]);
      InterfacesReadBack(faces[1..], rest);
      assert InterfaceDescs(faces) == InterfaceDesc(faces[0]) + tail;
      hide InterfaceDescs, ReadInterfaces;
      OneInterfaceReadsBack(faces[0], tail + rest, faces[1..], rest);
      assert InterfaceDesc(faces[0]) + tail + rest == InterfaceDesc(faces[0]) + (tail + rest);
      assert [faces[0]] + faces[1..] == faces;
    }
  }

  lemma {:induction false} DevicesReadBack(ds: seq<Device>, rest: seq<Byte>)
    requires AllFit(ds)
    ensures ReadDevices(DeviceList(ds) + rest, |ds|) == Some((AllExported(ds), rest))
  {
    hide ReadDeviceDesc, DeviceDesc, ReadInterfaces, InterfaceDescs;
    if ds == [] {
      assert DeviceList(ds) + rest == rest;
    } else {
      var d, more := ds[0], DeviceList(ds[1..]) + rest;
      assert DeviceList(ds) + rest == DeviceDesc(d) + (InterfaceDescs(d.interfaces) + more);
      DeviceReadsBack(d, InterfaceDescs(d.interfaces) + more);
      InterfacesReadBack(d.interfaces, more);
      DevicesReadBack(ds[1..], rest);
      assert [Exported(d)] + AllExported(ds[1..]) == AllExported(ds);
    }
  }

  /** A client that reads the count, and then each device with as many interfaces as it says it
      has, recovers every exported field of every device, in order, and stops at the end. */
  lemma DevlistReadsBack(ds: seq<Device>, rest: seq<Byte>)
    requires AllFit(ds) && |ds| < 0x1_0000_0000
    ensures ReadDevlist(DevlistReply(ds) + rest) == Some((AllExported(ds), rest))
  {
    hide ReadOpCommon, OpCommon, Word32, Be32, ReadDevices, DeviceList;
    var more := Be32(|ds|) + DeviceList(ds) + rest;
    assert DevlistReply(ds) + rest == OpCommon(REP_DEVLIST, 0) + more;
    OpCommonReadsBack(REP_DEVLIST, 0, more);
    Back32(|ds|);
    assert more[..4] == Be32(|ds|) && more[4..] == DeviceList(ds) + rest;
    DevicesReadBack(ds, rest);
  }

  /** The client of an import knows where the URB stream starts. */
  lemma ImportReadsBack(found: Option<Device>, rest: seq<Byte>)
    requires found.Some? ==> Fits(found.value)
    ensures ReadImport(ImportReply(found) + rest)
      == Some((if found.Some? then Some(found.value.(interfaces := [], endpoints := [])) else None, rest))
  {
    hide ReadOpCommon, OpCommon, ReadDeviceDesc, DeviceDesc;
    var status := if found.Some? then 0 else 1;
    var more := (if found.Some? then DeviceDesc(found.value) else []) + rest;
    assert ImportReply(found) + rest == OpCommon(REP_IMPORT, status) + more;
    OpCommonReadsBack(REP_IMPORT, status, more);
    if found.Some? {
      DeviceReadsBack(found.value, rest);
    } else {
      assert more == rest;
    }
  }

  // ---------------------------------------------------------------------------------------
  // The server

  /** Sent in full, or cut short. */
  ghost predicate Delivered(before: seq<Byte>, after: seq<Byte>, data: seq<Byte>, ok: bool) {
    if ok then after == before + data else before <= after < before + data
  }

  lemma DeliveredMore(before: seq<Byte>, a: seq<Byte>, mid: seq<Byte>, b: seq<Byte>, after: seq<Byte>, ok: bool)
    requires Delivered(before, mid, a, true) && Delivered(mid, after, b, ok)
    ensures Delivered(before, after, a + b, ok)
  {
    assert before + a + b == before + (a + b);
  }

  method Put(sock: Socket, data: seq<Byte>) returns (ok: bool)
    modifies sock`sent, sock`failed
    ensures sock.failed == (old(sock.failed) || !ok)
    ensures Delivered(old(sock.sent), sock.sent, data, ok)
  {
    ok := sock.WriteAll(data);
  }

  /** send_device_with_interfaces */
  method SendDevice(sock: Socket, d: Device) returns (ok: bool)
    requires Fits(d)
    modifies sock`sent, sock`failed
    ensures sock.failed == (old(sock.failed) || !ok)
    ensures Delivered(old(sock.sent), sock.sent, DeviceDesc(d) + InterfaceDescs(d.interfaces), ok)
  {
    hide DeviceDesc;
    ghost var before := sock.sent;
    var faces := d.interfaces;
    ok := Put(sock, DeviceDesc(d));
    if !ok { return; }
    ghost var mid := sock.sent;
    var i := 0;
    while i < |faces|
      invariant 0 <= i <= |faces| && sock.failed == old(sock.failed) && sock.sent == mid + InterfaceDescs(faces[..i])
    {
      ghost var here := sock.sent;
      ok := Put(sock, InterfaceDesc(faces[i]));
      InterfaceDescsSplit(faces, i);
      assert mid + (InterfaceDescs(faces[..i]) + InterfaceDesc(faces[i])) == here + InterfaceDesc(faces[i]);
      if !ok {
        assert before + (DeviceDesc(d) + InterfaceDescs(faces)) == mid + InterfaceDescs(faces);
        assert sock.sent < mid + InterfaceDescs(faces[..i + 1]) <= mid + InterfaceDescs(faces);
        return;
      }
      i := i + 1;
    }
    assert faces[..i] == faces;
    assert before + (DeviceDesc(d) + InterfaceDescs(faces)) == mid + InterfaceDescs(faces);
    return true;
  }

  lemma {:induction false} InterfaceDescsSplit(faces: seq<Interface>, i: nat)
    requires i < |faces|
    ensures InterfaceDescs(faces[..i + 1]) == InterfaceDescs(faces[..i]) + InterfaceDesc(faces[i])
    ensures InterfaceDescs(faces[..i + 1]) <= InterfaceDescs(faces)
  {
    hide InterfaceDesc;
    if i == 0 {
      assert faces[..1] == [faces[0]] && faces[..1][1..] == [] && faces[..0] == [];
    } else {
      InterfaceDescsSplit(faces[1..], i - 1);
      assert faces[..i][1..] == faces[1..][..i - 1] && faces[..i + 1][1..] == faces[1..][..i];
      assert faces[..i][0] == faces[0];
    }
  }

  lemma {:induction false} DeviceListSplit(ds: seq<Device>, i: nat)
    requires AllFit(ds) && i < |ds|
    ensures DeviceList(ds[..i + 1]) == DeviceList(ds[..i]) + (DeviceDesc(ds[i]) + InterfaceDescs(ds[i].interfaces))
    ensures DeviceList(ds[..i + 1]) <= DeviceList(ds)
  {
    hide DeviceDesc, InterfaceDescs;
    if i == 0 {
      assert ds[..1] == [ds[0]] && ds[..1][1..] == [] && ds[..0] == [];
    } else {
      DeviceListSplit(ds[1..], i - 1);
      assert ds[..i][1..] == ds[1..][..i - 1] && ds[..i + 1][1..] == ds[1..][..i];
      assert ds[..i][0] == ds[0] && ds[..i + 1][0] == ds[0];
    }
  }

  /** handle_devlist_request, once the devices have been collected. */
  method SendDevlist(sock: Socket, ds: seq<Device>) returns (ok: bool)
    requires AllFit(ds) && |ds| < 0x1_0000_0000
    modifies sock`sent, sock`failed
    ensures sock.failed == (old(sock.failed) || !ok)
    ensures Delivered(old(sock.sent), sock.sent, DevlistReply(ds), ok)
    ensures ok ==> ReadDevlist(sock.sent[|old(sock.sent)|..]) == Some((AllExported(ds), []))
  {
    hide OpCommon, DeviceDesc, DeviceList, Be32, ReadDevlist;
    ghost var before := sock.sent;
    ghost var head := OpCommon(REP_DEVLIST, 0);
    DevlistReadsBack(ds, []);
    assert DevlistReply(ds) + [] == DevlistReply(ds) == head + (Be32(|ds|) + DeviceList(ds));
    ok := Put(sock, OpCommon(REP_DEVLIST, 0));
    if !ok { return; }
    ghost var mid := sock.sent;
    ok := Put(sock, Be32(|ds|));
    if !ok { return; }
    DeliveredMore(before, head, mid, Be32(|ds|), sock.sent, true);
    ghost var start := sock.sent;
    NoDevices();
    var i := 0;
    while i < |ds|
      invariant 0 <= i <= |ds| && sock.failed == old(sock.failed)
      invariant Delivered(start, sock.sent, DeviceList(ds[..i]), true)
    {
      ghost var here := sock.sent;
      ok := SendDevice(sock, ds[i]);
      DeviceListSplit(ds, i);
      var next := DeviceDesc(ds[i]) + InterfaceDescs(ds[i].interfaces);
      DeliveredMore(start, DeviceList(ds[..i]), here, next, sock.sent, ok);
      if !ok {
        assert start + DeviceList(ds[..i + 1]) <= start + DeviceList(ds);
        assert before + DevlistReply(ds) == start + DeviceList(ds);
        return;
      }
      i := i + 1;
    }
    assert ds[..i] == ds;
    DeliveredMore(before, head + Be32(|ds|), start, DeviceList(ds), sock.sent, true);
    return true;
  }

  lemma NoDevices()
    ensures DeviceList([]) == []
  {}

  /** handle_import_request, once the device has been looked up. */
  method SendImport(sock: Socket, found: Option<Device>) returns (ok: bool)
    requires found.Some? ==> Fits(found.value)
    modifies sock`sent, sock`failed
    ensures sock.failed == (old(sock.failed) || !ok)
    ensures Delivered(old(sock.sent), sock.sent, ImportReply(found), ok)
  {
    hide OpCommon, DeviceDesc;
    ghost var before := sock.sent;
    ok := Put(sock, OpCommon(REP_IMPORT, if found.Some? then 0 else 1));
    if !ok || found.None? { return; }
    ghost var mid := sock.sent;
    ok := Put(sock, DeviceDesc(found.value));
    DeliveredMore(before, OpCommon(REP_IMPORT, 0), mid, DeviceDesc(found.value), sock.sent, ok);
  }
}
