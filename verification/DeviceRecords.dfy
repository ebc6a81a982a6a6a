/** The record of an attached device, against what the host library says about it. */
module DeviceRecords {
  import opened Bytes
  import opened Wrappers
  import opened Numerals
  import opened UsbDevice
  import opened Descriptors
  import opened BusIds
  import opened DeviceTable

  /** The characters of a field up to its terminator. */
  function TextOf(field: seq<Byte>): string {
    seq(StrLen(field), k requires 0 <= k < StrLen(field) => field[k] as char)
  }

  /** A bus ID as the client reads it: the bus, a dash, and a number in decimal. */
  predicate Names(text: string, bus: char, number: nat) {
    |text| > 2 && text[0] == bus && text[1] == '-' && AllDigits(text[2..], Dec) && Read(text[2..], Dec) == number
  }

  /** The interfaces that the configuration descriptor tells of: those of the longest part of it
      that is well-formed, as far as there is room. */
  function Told(config: Option<seq<Byte>>): seq<Interface> {
    if config.None? then [] else First(8, InterfacesIn(Split(config.value)))
  }

  function ToldEndpoints(config: Option<seq<Byte>>): seq<Endpoint> {
    if config.None? then [] else First(16, EndpointsIn(Split(config.value)))
  }

  /** The device that is attached at this address. */
  predicate Reports(d: Device, desc: UsbDesc, info: Info) {
    && d.idVendor == desc.idVendor && d.idProduct == desc.idProduct && d.bcdDevice == desc.bcdDevice
    && d.cls == desc.cls && d.subclass == desc.subclass && d.protocol == desc.protocol
    && d.numConfigurations == desc.numConfigurations && d.configuration == info.configuration
    && d.busnum == 1 && d.devnum == info.addr
    && (info.speed.Low? ==> d.speed == 1) && (info.speed.Full? ==> d.speed == 2) && (info.speed.High? ==> d.speed == 3)
    && (info.speed.OtherSpeed? ==> d.speed == 0)
    && Names(TextOf(d.busid), '1', info.addr) && TextOf(d.path) == "/esp-usb-host/" + TextOf(d.busid)
  }

  /** A device of the hub class, or with an interface of it. */
  predicate TellsHub(desc: UsbDesc, config: Option<seq<Byte>>) {
    desc.cls == 9 || exists i :: 0 <= i < |Told(config)| && Told(config)[i].cls == 9
  }

  lemma TextOfField(text: string, size: nat)
    requires Plain(text) && |text| < size
    ensures TextOf(Field(text, size)) == text
  {
    StrLenOfField(text, size);
    forall k | 0 <= k < |text| ensures Field(text, size)[k] == text[k] as int { FieldAt(text, size, k); }
  }

  lemma NameReads(bus: char, n: nat)
    requires Bus(bus) && n < 0x1_0000_0000
    ensures Names(Name(bus, n), bus, n)
  {
    hide AllDigits, Read, Print;
    ReadPrint(n, Dec);
    assert Name(bus, n)[2..] == Print(n, Dec);
  }

  lemma PlainPath(a: string, b: string)
    requires Plain(a) && Plain(b)
    ensures Plain(a + b)
  {}

  lemma NoneIn()
    ensures InterfacesIn([]) == [] && EndpointsIn([]) == []
  {}

  lemma MadeReports(desc: UsbDesc, info: Info, config: Option<seq<Byte>>)
    ensures var d := MakeDevice(desc, info, config);
      && Reports(d, desc, info) && d.interfaces == Told(config) && d.endpoints == ToldEndpoints(config)
      && (IsHub(d) <==> TellsHub(desc, config))
  {
    hide Split, InterfacesIn, EndpointsIn, TextOf, Field, Name, Names;
    NoneIn();
    var name := Name('1', info.addr);
    NameFits('1', info.addr);
    NameReads('1', info.addr);
    TextOfField(name, BUSID);
    PlainPath("/esp-usb-host/", name);
    TextOfField("/esp-usb-host/" + name, PATH);
  }
}
