/**
 * Legacy (ISA) devices: the fixed map from a legacy address to its IRQ line,
 * and the driver test that decides whether a driver serves an address.
 */
module LegacyDevice {

  /**
   * A legacy bus address. The six addresses with a fixed IRQ are named;
   * `Unlisted` stands for every other value the address can take.
   */
  datatype LegacyAddress = Keyboard | Com1 | Com2 | Com3 | Com4 | Mouse | Unlisted(value: nat)

  /** A device address; only its legacy component is observed here. */
  datatype DeviceAddress = DeviceAddress(legacy: LegacyAddress)

  /** The addresses LegacyDevice::interrupt knows an IRQ for. */
  predicate HasInterrupt(a: LegacyAddress) {
    !a.Unlisted?
  }

  /**
   * LegacyDevice::interrupt. Any other address is unreachable, so it is the
   * caller's obligation to pass a known one.
   */
  function Interrupt(a: LegacyAddress): (irq: nat)
    requires HasInterrupt(a)
    ensures irq in {1, 3, 4, 12}
  {
    match a
    case Keyboard => 1
    case Com2 | Com4 => 3
    case Com1 | Com3 => 4
    case Mouse => 12
  }

  /** The legacy addresses sharing each IRQ line, read by line. */
  function AddressesOn(irq: nat): set<LegacyAddress> {
    if irq == 1 then {Keyboard}
    else if irq == 3 then {Com2, Com4}
    else if irq == 4 then {Com1, Com3}
    else if irq == 12 then {Mouse}
    else {}
  }

  /** Interrupt agrees with the per-line table in both directions. */
  lemma InterruptByLine(a: LegacyAddress, irq: nat)
    requires HasInterrupt(a)
    ensures Interrupt(a) == irq <==> a in AddressesOn(irq)
  {
  }

  /** Every IRQ line used by legacy devices carries at least one known address. */
  lemma LinesAreUsed(irq: nat)
    requires irq in {1, 3, 4, 12}
    ensures exists a :: a in AddressesOn(irq) && HasInterrupt(a) && Interrupt(a) == irq
  {
    var a := if irq == 1 then Keyboard else if irq == 3 then Com2 else if irq == 4 then Com1 else Mouse;
    assert a in AddressesOn(irq);
  }

  /** A legacy device instance, created for one device address. */
  datatype LegacyDevice = LegacyDevice(address: DeviceAddress) {

    /** LegacyDevice::legacy_address */
    function LegacyAddressOf(): LegacyAddress {
      address.legacy
    }
  }

  /** A driver for one legacy address; `name` is the name it registers under. */
  datatype LegacyDeviceDriver = LegacyDeviceDriver(name: string, address: LegacyAddress) {

    /** LegacyDeviceDriver::match: the driver serves exactly its own address. */
    predicate Match(a: DeviceAddress) {
      address == a.legacy
    }

    /** LegacyDeviceDriver::instance: a device for the given address. */
    function Instance(a: DeviceAddress): (d: LegacyDevice)
      ensures d.LegacyAddressOf() == a.legacy
    {
      LegacyDevice(a)
    }
  }

  /**
   * A device a driver instantiates for an address it matched sits at the
   * driver's address, so its IRQ (when it has one) is the driver's address's.
   */
  lemma MatchedInstanceInterrupt(drv: LegacyDeviceDriver, a: DeviceAddress)
    requires drv.Match(a)
    ensures drv.Instance(a).LegacyAddressOf() == drv.address
    ensures HasInterrupt(drv.address) ==>
      Interrupt(drv.Instance(a).LegacyAddressOf()) == Interrupt(drv.address)
  {
  }

  /**
   * A driver matches a device address at its own legacy address, and any two
   * addresses it matches share their legacy part: it serves one legacy address.
   */
  lemma MatchIsExact(drv: LegacyDeviceDriver, a1: DeviceAddress, a2: DeviceAddress)
    ensures drv.Match(DeviceAddress(drv.address))
    ensures drv.Match(a1) && drv.Match(a2) ==> a1.legacy == a2.legacy
  {
  }
}
