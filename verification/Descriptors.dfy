/** parse_descriptors of main/usb_backend.c: walking a configuration descriptor (USB 2.0, sections
    9.6.3, 9.6.5 and 9.6.6) for its interfaces and endpoints. */
module Descriptors {
  import opened Bytes
  import opened UsbDevice

  const INTERFACE_TYPE: Byte := 4
  const ENDPOINT_TYPE: Byte := 5

  /** A descriptor starts with its own length and its type. */
  predicate WellFormed(d: seq<Byte>) { |d| >= 2 && d[0] == |d| }

  predicate AllWellFormed(ds: seq<seq<Byte>>) {
    forall d | d in ds :: WellFormed(d)
  }

  function Concat(ds: seq<seq<Byte>>): seq<Byte> {
    if ds == [] then [] else ds[0] + Concat(ds[1..])
  }

  /** A descriptor can be taken off the front. */
  predicate HasFirst(blob: seq<Byte>) { |blob| >= 2 && 2 <= blob[0] <= |blob| }

  function Split(blob: seq<Byte>): seq<seq<Byte>>
    decreases |blob|
  {
    if !HasFirst(blob) then [] else [blob[..blob[0]]] + Split(blob[blob[0]..])
  }

  /** Split takes a prefix of the blob apart, */
  lemma {:induction false} SplitIsPrefix(blob: seq<Byte>)
    ensures AllWellFormed(Split(blob)) && Concat(Split(blob)) <= blob
    decreases |blob|
  {
    if HasFirst(blob) {
      var n := blob[0];
      SplitIsPrefix(blob[n..]);
      assert blob == blob[..n] + blob[n..];
      assert Split(blob)[1..] == Split(blob[n..]);
    }
  }

  /** and no other way of taking a prefix apart goes on any longer. */
  lemma {:induction false} SplitIsLongest(blob: seq<Byte>, ds: seq<seq<Byte>>)
    requires AllWellFormed(ds) && Concat(ds) <= blob
    ensures ds <= Split(blob)
    decreases |blob|
  {
    if ds != [] {
      var n := |ds[0]|;
      assert WellFormed(ds[0]) && Concat(ds)[..n] == ds[0] == blob[..n];
      assert blob[0] == ds[0][0];
      assert Concat(ds)[n..] == Concat(ds[1..]) <= blob[n..];
      SplitIsLongest(blob[n..], ds[1..]);
      assert ds == [ds[0]] + ds[1..];
    }
  }

  lemma SplitFront(d: seq<Byte>, rest: seq<Byte>)
    requires WellFormed(d)
    ensures Split(d + rest) == [d] + Split(rest)
  {
    var blob := d + rest;
    assert blob[0] == d[0];
    assert blob[..|d|] == d && blob[|d|..] == rest;
    SplitStep(blob);
  }

  /** So a list of descriptors is recovered from its bytes, whatever follows them. */
  lemma {:induction false} SplitConcat(ds: seq<seq<Byte>>, rest: seq<Byte>)
    requires AllWellFormed(ds)
    ensures Split(Concat(ds) + rest) == ds + Split(rest)
  {
    hide Split, WellFormed;
    if ds == [] {
      assert Concat(ds) + rest == rest;
    } else {
      var d, more := ds[0], ds[1..];
      assert WellFormed(d);
      SplitConcat(more, rest);
      assert Concat(ds) + rest == d + (Concat(more) + rest);
      SplitFront(d, Concat(more) + rest);
      assert ds == [d] + more;
    }
  }

  // ---------------------------------------------------------------------------------------
  // Records

  predicate IsInterface(d: seq<Byte>) { |d| >= 9 && d[1] == INTERFACE_TYPE }

  predicate IsEndpoint(d: seq<Byte>) { |d| >= 7 && d[1] == ENDPOINT_TYPE }

  function InterfaceOf(d: seq<Byte>): Interface
    requires IsInterface(d)
  {
    Interface(d[5], d[6], d[7])
  }

  /** wMaxPacketSize is little-endian. */
  function EndpointOf(d: seq<Byte>): Endpoint
    requires IsEndpoint(d)
  {
    var high: int := d[5];
    Endpoint(d[2], d[3], d[4] + 256 * high, d[6])
  }

  function InterfacesIn(ds: seq<seq<Byte>>): seq<Interface> {
    if ds == [] then []
    else InterfacesIn(ds[..|ds| - 1]) + if IsInterface(ds[|ds| - 1]) then [InterfaceOf(ds[|ds| - 1])] else []
  }

  function EndpointsIn(ds: seq<seq<Byte>>): seq<Endpoint> {
    if ds == [] then []
    else EndpointsIn(ds[..|ds| - 1]) + if IsEndpoint(ds[|ds| - 1]) then [EndpointOf(ds[|ds| - 1])] else []
  }

  function First<T>(n: nat, s: seq<T>): seq<T> { if |s| <= n then s else s[..n] }

  lemma SeenOneMore(ds: seq<seq<Byte>>, d: seq<Byte>)
    ensures InterfacesIn(ds + [d]) == InterfacesIn(ds) + if IsInterface(d) then [InterfaceOf(d)] else []
    ensures EndpointsIn(ds + [d]) == EndpointsIn(ds) + if IsEndpoint(d) then [EndpointOf(d)] else []
  {
    assert (ds + [d])[..|ds|] == ds;
  }

  /** Keeps the record of one descriptor, if it is of a kind that is kept and there is room. */
  method KeepRecord(raw: array<Byte>, offset: nat, descLen: Byte, interfaces: array<Interface>, intfCount: nat,
                    endpoints: array<Endpoint>, epCount: nat, ghost seen: seq<seq<Byte>>)
    returns (m: nat, n: nat)
    requires 2 <= descLen && offset + descLen <= raw.Length
    requires intfCount <= interfaces.Length == MAX_INTERFACES && epCount <= endpoints.Length == MAX_ENDPOINTS
    requires interfaces[..intfCount] == First(MAX_INTERFACES, InterfacesIn(seen))
    requires endpoints[..epCount] == First(MAX_ENDPOINTS, EndpointsIn(seen))
    modifies interfaces, endpoints
    ensures raw[..] == old(raw[..]) && m <= MAX_INTERFACES && n <= MAX_ENDPOINTS
    ensures interfaces[..m] == First(MAX_INTERFACES, InterfacesIn(seen + [raw[offset..offset + descLen]]))
    ensures endpoints[..n] == First(MAX_ENDPOINTS, EndpointsIn(seen + [raw[offset..offset + descLen]]))
  {
    hide InterfacesIn, EndpointsIn;
    m, n := intfCount, epCount;
    var descType := raw[offset + 1];
    ghost var d := raw[offset..offset + descLen];
    SeenOneMore(seen, d);
    if descType == INTERFACE_TYPE && descLen >= 9 && intfCount < MAX_INTERFACES {
      interfaces[m] := Interface(raw[offset + 5], raw[offset + 6], raw[offset + 7]);
      m := m + 1;
    } else if descType == ENDPOINT_TYPE && descLen >= 7 && epCount < MAX_ENDPOINTS {
      var high: int := raw[offset + 5];
      endpoints[n] := Endpoint(raw[offset + 2], raw[offset + 3], raw[offset + 4] + 256 * high, raw[offset + 6]);
      n := n + 1;
    }
  }

  /** The loop of parse_descriptors.  It reads nothing outside the total length, and leaves the
      first 8 interfaces and the first 16 endpoints of the longest well-formed prefix. */
  method ParseDescriptors(raw: array<Byte>, totalLen: nat, interfaces: array<Interface>, endpoints: array<Endpoint>)
    returns (intfCount: nat, epCount: nat)
    requires totalLen <= raw.Length
    requires interfaces.Length == MAX_INTERFACES && endpoints.Length == MAX_ENDPOINTS
    modifies interfaces, endpoints
    ensures raw[..] == old(raw[..])
    ensures intfCount <= MAX_INTERFACES && epCount <= MAX_ENDPOINTS
    ensures interfaces[..intfCount] == First(MAX_INTERFACES, InterfacesIn(Split(raw[..totalLen])))
    ensures endpoints[..epCount] == First(MAX_ENDPOINTS, EndpointsIn(Split(raw[..totalLen])))
  {
    hide Split, InterfacesIn, EndpointsIn, First;
    intfCount, epCount := 0, 0;
    NothingSeen();
    var offset := 0;
    ghost var blob := raw[..totalLen];
    ghost var seen: seq<seq<Byte>> := [];
    assert blob[0..] == blob;
    while offset + 2 <= totalLen
      invariant 0 <= offset <= totalLen && raw[..totalLen] == blob
      invariant Split(blob) == seen + Split(blob[offset..])
      invariant intfCount <= MAX_INTERFACES && epCount <= MAX_ENDPOINTS
      invariant interfaces[..intfCount] == First(MAX_INTERFACES, InterfacesIn(seen))
      invariant endpoints[..epCount] == First(MAX_ENDPOINTS, EndpointsIn(seen))
      decreases totalLen - offset
    {
      var descLen := raw[offset];
      SplitStep(blob[offset..]);
      assert blob[offset..][0] == descLen;
      if descLen < 2 || offset + descLen > totalLen {
        break;
      }
      ghost var d := blob[offset..offset + descLen];
      Slices(blob, offset, descLen);
      assert d == raw[offset..offset + descLen];
      intfCount, epCount := KeepRecord(raw, offset, descLen, interfaces, intfCount, endpoints, epCount, seen);
      seen := seen + [d];
      offset := offset + descLen;
    }
    SplitStep(blob[offset..]);
    assert Split(blob) == seen;
  }

  lemma Slices(s: seq<Byte>, i: nat, n: nat)
    requires i + n <= |s|
    ensures s[i..][..n] == s[i..i + n] && s[i..][n..] == s[i + n..]
  {}

  lemma NothingSeen()
    ensures First(MAX_INTERFACES, InterfacesIn([])) == [] && First(MAX_ENDPOINTS, EndpointsIn([])) == []
  {}

  lemma SplitStep(blob: seq<Byte>)
    ensures Split(blob) == if HasFirst(blob) then [blob[..blob[0]]] + Split(blob[blob[0]..]) else []
  {}

  // ---------------------------------------------------------------------------------------
  // Writing descriptors

  /** What a device may put in its configuration descriptor: interfaces, endpoints, and other kinds of
      descriptors, or those kinds cut too short to be one. */
  datatype Item =
    | IntfItem(number: Byte, alternate: Byte, numEndpoints: Byte, intf: Interface, more: seq<Byte>)
    | EpItem(ep: Endpoint, more: seq<Byte>)
    | OtherItem(kind: Byte, more: seq<Byte>)

  /** Fits the one byte that holds a descriptor's length, and is what it says. */
  predicate Writable(x: Item) {
    match x
    case IntfItem(_, _, _, _, more) => 1 <= |more| <= 247
    case EpItem(_, more) => |more| <= 248
    case OtherItem(kind, more) => |more| <= 253 && (kind == 4 ==> |more| < 7) && (kind == 5 ==> |more| < 5)
  }

  function Write(x: Item): seq<Byte>
    requires Writable(x)
  {
    match x
    case IntfItem(n, a, e, i, more) =>
      [8 + |more|, 4, n, a, e, i.cls, i.subclass, i.protocol] + more
    case EpItem(e, more) =>
      var size := [e.maxPacketSize % 256, e.maxPacketSize / 256];
      [7 + |more|, 5, e.address, e.attributes] + size + [e.interval] + more
    case OtherItem(kind, more) => [2 + |more|, kind] + more
  }

  predicate AllWritable(xs: seq<Item>) {
    forall x | x in xs :: Writable(x)
  }

  function WriteAll(xs: seq<Item>): (ds: seq<seq<Byte>>)
    requires AllWritable(xs)
    ensures |ds| == |xs| && forall k | 0 <= k < |xs| :: ds[k] == Write(xs[k])
  {
    if xs == [] then [] else WriteAll(xs[..|xs| - 1]) + [Write(xs[|xs| - 1])]
  }

  function Interfaces(xs: seq<Item>): seq<Interface> {
    if xs == [] then []
    else Interfaces(xs[..|xs| - 1]) + if xs[|xs| - 1].IntfItem? then [xs[|xs| - 1].intf] else []
  }

  function Endpoints(xs: seq<Item>): seq<Endpoint> {
    if xs == [] then []
    else Endpoints(xs[..|xs| - 1]) + if xs[|xs| - 1].EpItem? then [xs[|xs| - 1].ep] else []
  }

  lemma WriteOne(x: Item)
    requires Writable(x)
    ensures WellFormed(Write(x))
    ensures IsInterface(Write(x)) <==> x.IntfItem?
    ensures x.IntfItem? ==> InterfaceOf(Write(x)) == x.intf
    ensures IsEndpoint(Write(x)) <==> x.EpItem?
    ensures x.EpItem? ==> EndpointOf(Write(x)) == x.ep
  {}

  lemma {:induction false} RecordsOfWritten(xs: seq<Item>)
    requires AllWritable(xs)
    ensures InterfacesIn(WriteAll(xs)) == Interfaces(xs) && EndpointsIn(WriteAll(xs)) == Endpoints(xs)
  {
    hide Write, WellFormed, IsInterface, IsEndpoint, InterfaceOf, EndpointOf;
    if xs != [] {
      var init, x := xs[..|xs| - 1], xs[|xs| - 1];
      RecordsOfWritten(init);
      WriteOne(x);
      SeenOneMore(WriteAll(init), Write(x));
    }
  }

  /** Writing any list of descriptors and walking it recovers its interfaces and endpoints. */
  lemma WrittenReadBack(xs: seq<Item>)
    requires AllWritable(xs)
    ensures var ds := Split(Concat(WriteAll(xs)));
      InterfacesIn(ds) == Interfaces(xs) && EndpointsIn(ds) == Endpoints(xs)
  {
    hide Write, WellFormed;
    var ds := WriteAll(xs);
    forall d | d in ds ensures WellFormed(d) {
      var k :| 0 <= k < |ds| && ds[k] == d;
      WriteOne(xs[k]);
    }
    SplitConcat(ds, []);
    assert Concat(ds) + [] == Concat(ds);
    assert ds + Split([]) == ds;
    RecordsOfWritten(xs);
  }
}
