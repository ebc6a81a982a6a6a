/** What a USB/IP client reads about a device after it has been attached or registered, against what
    the host library or its driver says about it. */
module DeviceReports {
  import opened Bytes
  import opened Wrappers
  import opened Numerals
  import opened UsbDevice
  import opened Descriptors
  import opened BusIds
  import opened DeviceTable
  import opened DeviceRecords
  import opened DeviceDirectory
  import UsbipWire

  // ---------------------------------------------------------------------------------------
  // Attaching

  predicate Room(slots: seq<Slot>, address: nat) {
    exists i :: 0 <= i < |slots| && (slots[i].Free? || slots[i].device.devnum == address)
  }

  /** An attached device gets a slot if and only if it is no hub and there is a slot that is free or
      has its address.  No slot of another address changes. */
  lemma AttachPlaces(s: State, desc: UsbDesc, info: Info, config: Option<seq<Byte>>)
    requires Inv(s)
    ensures var t := Step(s, Attach(Some(desc), Some(info), config));
      && |t.slots| == |s.slots| && t.virt == s.virt && t.opens == s.opens + 1
      && (Held(t.slots, s.opens) <==> !TellsHub(desc, config) && Room(s.slots, info.addr))
      && (forall i | 0 <= i < |s.slots| && s.slots[i].Used? && s.slots[i].device.devnum != info.addr ::
            t.slots[i] == s.slots[i])
      && (TellsHub(desc, config) ==> t.slots == s.slots)
  {
    hide MakeDevice, IsHub, BusidOf, TellsHub, Told, Reports, Fits;
    var e := Attach(Some(desc), Some(info), config);
    var d, t := MakeDevice(desc, info, config), Step(s, e);
    MadeReports(desc, info, config);
    ReportedNumber(d, desc, info);
    AttachLists(s, e);
    AttachFrame(s, e);
    forall i | 0 <= i < |s.slots| ensures !Hit(s.slots[i], ByHandle(s.opens)) { assert SlotOk(s.slots[i], s.opens); }
    if i :| 0 <= i < |s.slots| && t.slots[i] == Used(s.opens, d) { assert Hit(t.slots[i], ByHandle(s.opens)); }
  }

  lemma ReportedNumber(d: Device, desc: UsbDesc, info: Info)
    requires Reports(d, desc, info)
    ensures d.devnum == info.addr
  {}

  lemma AttachFrame(s: State, e: Event)
    requires e.Attach? && e.desc.Some? && e.info.Some?
    ensures var d, t := MakeDevice(e.desc.value, e.info.value, e.config), Step(s, e);
      && |t.slots| == |s.slots| && t.virt == s.virt && t.opens == s.opens + 1
      && (forall i | 0 <= i < |s.slots| ::
            t.slots[i] == s.slots[i] || t.slots[i] == Used(s.opens, d)
            || (t.slots[i].Free? && s.slots[i].Used? && s.slots[i].device.devnum == d.devnum))
      && (forall i | 0 <= i < |s.slots| && s.slots[i].Used? && s.slots[i].device.devnum != d.devnum ::
            t.slots[i] == s.slots[i])
      && (IsHub(d) ==> t.slots == s.slots)
  {
    hide MakeDevice, IsHub, Place;
    var d := MakeDevice(e.desc.value, e.info.value, e.config);
    PlaceFrame(s.(opens := s.opens + 1), s.opens, d);
  }

  lemma PlaceFrame(s: State, h: nat, d: Device)
    ensures var t := Place(s, h, d);
      && |t.slots| == |s.slots| && t.virt == s.virt && t.opens == s.opens
      && (forall i | 0 <= i < |s.slots| ::
            t.slots[i] == s.slots[i] || t.slots[i] == Used(h, d)
            || (t.slots[i].Free? && s.slots[i].Used? && s.slots[i].device.devnum == d.devnum))
      && (forall i | 0 <= i < |s.slots| && s.slots[i].Used? && s.slots[i].device.devnum != d.devnum ::
            t.slots[i] == s.slots[i])
  {
    hide Matches, Find;
  }

  /** A client that reads the k-th device of the listing, and then imports it under the bus ID it has
      read there, is told all this about it both times. */
  ghost predicate IsRead(t: State, k: nat, desc: UsbDesc, info: Info, config: Option<seq<Byte>>)
    requires UsbipWire.AllFit(Listing(t)) && |Listing(t)| < 0x1_0000_0000
  {
    var listed := UsbipWire.ReadDevlist(UsbipWire.DevlistReply(Listing(t)));
    && listed.Some? && k < |listed.value.0|
    && Reports(listed.value.0[k], desc, info) && listed.value.0[k].interfaces == Told(config)
    && var found := Lookup(t, listed.value.0[k].busid);
    && found.Some? && Fits(found.value)
    && var imported := UsbipWire.ReadImport(UsbipWire.ImportReply(found));
    && imported.Some? && imported.value.0.Some? && Reports(imported.value.0.value, desc, info)
  }

  /** That is so of an attached device that got a slot. */
  lemma AttachedIsRead(s: State, desc: UsbDesc, info: Info, config: Option<seq<Byte>>) returns (k: nat)
    requires Inv(s) && |s.slots| + VIRTUAL_MAX < 0x1_0000_0000
    requires Held(Step(s, Attach(Some(desc), Some(info), config)).slots, s.opens)
    ensures var t := Step(s, Attach(Some(desc), Some(info), config));
      UsbipWire.AllFit(Listing(t)) && |Listing(t)| < 0x1_0000_0000 && IsRead(t, k, desc, info, config)
  {
    hide MakeDevice, IsHub, BusidOf, Told, Reports, Fits, IsRead, Listing, Inv, Step, Place, UsbipWire.AllFit;
    var e := Attach(Some(desc), Some(info), config);
    var d, t := MakeDevice(desc, info, config), Step(s, e);
    MadeReports(desc, info, config);
    StepInv(s, e);
    ListingFits(t);
    AttachFrame(s, e);
    k := PlacedAt(s, t, d);
    ShownAt(t, k, d, desc, info, config);
  }

  lemma PlacedAt(s: State, t: State, d: Device) returns (k: nat)
    requires Inv(s) && |t.slots| == |s.slots| && Held(t.slots, s.opens)
    requires forall i | 0 <= i < |s.slots| ::
      t.slots[i] == s.slots[i] || t.slots[i] == Used(s.opens, d) || t.slots[i].Free?
    ensures k < |Exported(t.slots)| && Exported(t.slots)[k] == d
  {
    hide BusidOf, Fits;
    var i :| 0 <= i < |t.slots| && Hit(t.slots[i], ByHandle(s.opens));
    assert SlotOk(s.slots[i], s.opens);
    ExportedHas(t.slots, i);
    k :| 0 <= k < |Exported(t.slots)| && Exported(t.slots)[k] == d;
  }

  lemma ShownAt(t: State, k: nat, d: Device, desc: UsbDesc, info: Info, config: Option<seq<Byte>>)
    requires Inv(t) && UsbipWire.AllFit(Listing(t)) && |Listing(t)| < 0x1_0000_0000
    requires k < |Exported(t.slots)| && Exported(t.slots)[k] == d
    requires Reports(d, desc, info) && d.interfaces == Told(config)
    ensures IsRead(t, k, desc, info, config)
  {
    hide Inv, Lookup, BusidOf, Expected, Told, Reports, Fits;
    hide UsbipWire.ReadDevlist, UsbipWire.ReadImport, UsbipWire.DevlistReply, UsbipWire.ImportReply;
    var ds := Listing(t);
    assert ds[k] == d;
    UsbipWire.DevlistReadsBack(ds, []);
    assert UsbipWire.DevlistReply(ds) + [] == UsbipWire.DevlistReply(ds);
    var listed := UsbipWire.AllExported(ds)[k];
    assert listed == UsbipWire.Exported(d);
    SameReport(d, listed, desc, info);
    ListedUnder(t, k);
    MatchesItself('1', d.devnum);
    ListedIsFound(t, k);
    assert d in ds;
    UsbipWire.ImportReadsBack(Some(d), []);
    assert UsbipWire.ImportReply(Some(d)) + [] == UsbipWire.ImportReply(Some(d));
    SameReport(d, d.(interfaces := [], endpoints := []), desc, info);
  }

  lemma SameReport(d: Device, e: Device, desc: UsbDesc, info: Info)
    requires Reports(d, desc, info) && e == d.(interfaces := e.interfaces, endpoints := e.endpoints)
    ensures Reports(e, desc, info)
  {}

  // ---------------------------------------------------------------------------------------
  // Registering

  lemma TextOfPrinted(field: seq<Byte>, text: string)
    requires Plain(text) && |text| < |field|
    ensures TextOf(Printed(field, text)) == text
  {
    var s := Printed(field, text);
    forall k | 0 <= k < |text| ensures s[k] == text[k] as int && s[k] != 0 {
      assert text[k] in text;
      assert s[k] == Ascii(text)[k];
    }
    assert s[|text|] == 0;
  }

  /** The virtual device of this number: as its driver describes it, but under a bus ID of its own. */
  predicate ReportsVirtual(v: Device, d: Device, number: nat) {
    && v.busnum == 2 && v.devnum == number
    && Names(TextOf(v.busid), '2', number) && TextOf(v.path) == "/esp-virtual/" + TextOf(v.busid)
    && v == d.(busnum := v.busnum, devnum := v.devnum, busid := v.busid, path := v.path)
  }

  lemma NamedReports(d: Device, number: U32)
    requires number < 10
    ensures ReportsVirtual(Named(d, number), d, number) && Named(d, number).busnum == 2
  {
    hide TextOf, Name, Names, Printed;
    var name := Name('2', number);
    OneDigit(number);
    NameFits('2', number);
    NameReads('2', number);
    TextOfPrinted(d.busid, name);
    PlainPath("/esp-virtual/", name);
    TextOfPrinted(d.path, "/esp-virtual/" + name);
  }

  /** A key that is a bus ID's text and zeros behind it. */
  lemma KeyOfText(key: Busid, stored: Busid)
    requires TextOf(key) == TextOf(stored) && Clean(key) && StrLen(stored) < BUSID
    ensures key == Expected(stored)
  {
    var n := StrLen(stored);
    assert |TextOf(key)| == n;
    forall k | 0 <= k < n ensures key[k] == stored[k] { assert TextOf(key)[k] == TextOf(stored)[k]; }
  }

  /** A registered device is the last of the listing that a client reads, and every other stays what
      it was, but for earlier entries of the same object. */
  lemma RegisteredIsRead(s: State, d: Device, alias: nat)
    requires Inv(s) && Fits(d) && |s.virt| < 4 && |s.slots| + VIRTUAL_MAX < 0x1_0000_0000
    ensures var t, n := Step(s, Register(d, alias)), |s.virt|;
      && t.slots == s.slots && |t.virt| == n + 1 && ReportsVirtual(t.virt[n], d, n + 1)
      && (forall i | 0 <= i < n :: t.virt[i] == if s.virt[i].devnum == alias then t.virt[n] else s.virt[i])
      && UsbipWire.AllFit(Listing(t)) && |Listing(t)| < 0x1_0000_0000
      && var listed := UsbipWire.ReadDevlist(UsbipWire.DevlistReply(Listing(t)));
      && listed.Some? && |listed.value.0| == |Listing(s)| + 1
      && listed.value.0[|Listing(s)|] == t.virt[n].(endpoints := [])
      && (forall key: Busid | TextOf(key) == TextOf(t.virt[n].busid) && Clean(key) :: Lookup(t, key) == Some(t.virt[n]))
  {
    hide Named, ReportsVirtual, Inv, Registered, Exported;
    hide UsbipWire.AllFit, UsbipWire.ReadDevlist, UsbipWire.DevlistReply;
    var t, n := Step(s, Register(d, alias)), |s.virt|;
    NamedReports(d, n + 1);
    assert t.virt[n] == Named(d, n + 1);
    StepInv(s, Register(d, alias));
    ListingFits(t);
    var ds := Listing(t);
    assert |ds| == |Listing(s)| + 1 && ds[|Listing(s)|] == t.virt[n];
    UsbipWire.DevlistReadsBack(ds, []);
    assert UsbipWire.DevlistReply(ds) + [] == UsbipWire.DevlistReply(ds);
    FoundByText(t, |Listing(s)|, t.virt[n]);
  }

  lemma FoundByText(t: State, k: nat, d: Device)
    requires Inv(t) && k < |Listing(t)| && Listing(t)[k] == d && d.busnum == 2
    ensures forall key: Busid | TextOf(key) == TextOf(d.busid) && Clean(key) :: Lookup(t, key) == Some(d)
  {
    hide Inv, Lookup, Expected, TextOf, Clean, BusidOf, Listing;
    ListedNumbers(t, k);
    ExpectedEnds(d.busid, BusOf(d), d.devnum);
    ListedIsFound(t, k);
    forall key: Busid | TextOf(key) == TextOf(d.busid) && Clean(key) ensures Lookup(t, key) == Some(d) {
      KeyOfText(key, d.busid);
    }
  }
}
