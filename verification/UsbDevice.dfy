/** A device as main/usb_backend.h describes it. */
module UsbDevice {
  import opened Bytes

  const MAX_INTERFACES: nat := 8
  const MAX_ENDPOINTS: nat := 16
  const PATH: nat := 256
  const BUSID: nat := 32

  type Path = s: seq<Byte> | |s| == PATH witness seq(256, _ => 0)
  type Busid = s: seq<Byte> | |s| == BUSID witness seq(32, _ => 0)
  type U16 = n: nat | n < 0x1_0000
  type U32 = n: nat | n < 0x1_0000_0000

  datatype Interface = Interface(cls: Byte, subclass: Byte, protocol: Byte)

  datatype Endpoint = Endpoint(address: Byte, attributes: Byte, maxPacketSize: U16, interval: Byte)

  datatype Device = Device(
    path: Path, busid: Busid, busnum: U32, devnum: U32, speed: U32,
    idVendor: U16, idProduct: U16, bcdDevice: U16,
    cls: Byte, subclass: Byte, protocol: Byte, configuration: Byte, numConfigurations: Byte,
    interfaces: seq<Interface>, endpoints: seq<Endpoint>)

  /** Fits the fixed arrays of usbip_backend_device_t. */
  predicate Fits(d: Device) {
    |d.interfaces| <= MAX_INTERFACES && |d.endpoints| <= MAX_ENDPOINTS
  }
}
