/**
 Which of the two DW791x devices an operation addresses: the slot each probe
 assigns (`dw791x_probe`), the slot a client resolves to afterwards
 (`getActuatorIndex`), and the user-selected channel of the sysfs handlers
 (`gChannel`, its store sanitiser and the channel-to-slot rule they repeat).
 */
module ActuatorIndex {
  import opened Bits

  const NUM_ACTUATORS: int := 2
  /** The address the one-bus rule treats as slot 0. */
  const DEVICE_ADDR_1: int := 0x59

  /** An I2C client: its adapter (bus) number and its 7-bit address. */
  datatype Client = Client(bus: nat, addr: int)

  /** `gActuatorIndex`, `gBus[2]` and `gAddr[2]`. */
  datatype Registry = Registry(last: int, bus: seq<int>, addr: seq<int>)

  predicate ValidRegistry(r: Registry)
  {
    |r.bus| == NUM_ACTUATORS && |r.addr| == NUM_ACTUATORS
  }

  /** The registry before any probe: slot 0 is the bottom actuator, so the
      index counts down from 2, and both buses read -1. */
  const BOOT: Registry := Registry(2, [-1, -1], [0x00, 0x00])

  /** `dw791x_probe` recording a client: the index steps down and the
      client's bus and address go into that slot. `None` when the index falls
      outside the two slots, where the C code writes out of bounds. */
  function Probe(r: Registry, c: Client): (res: Option<(Registry, int)>)
    requires ValidRegistry(r)
    ensures res.Some? <==> 0 <= r.last - 1 < NUM_ACTUATORS
    ensures res.Some? ==>
      var (r', index) := res.value;
      && index == r'.last == r.last - 1
      && ValidRegistry(r')
      && r'.bus[index] == c.bus && r'.addr[index] == c.addr
      && r'.bus[1 - index] == r.bus[1 - index] && r'.addr[1 - index] == r.addr[1 - index]
  {
    var index := r.last - 1;
    if 0 <= index < NUM_ACTUATORS then
      Some((Registry(index, r.bus[index := c.bus], r.addr[index := c.addr]), index))
    else None
  }

  /** `getActuatorIndex`: -1 for a null client; otherwise, when the two
      recorded buses differ, slot 0 is the client on the first bus, and when
      they agree, slot 0 is the client at `DEVICE_ADDR_1`. Any other client
      lands in slot 1; there is no "unknown" answer. */
  function Resolve(r: Registry, c: Option<Client>): (index: int)
    requires ValidRegistry(r)
    ensures index == -1 <==> c.None?
    ensures c.Some? ==> 0 <= index < NUM_ACTUATORS
  {
    match c
    case None => -1
    case Some(cl) =>
      if r.bus[0] != r.bus[1] then (if cl.bus == r.bus[0] then 0 else 1)
      else (if cl.addr == DEVICE_ADDR_1 then 0 else 1)
  }

  /** Probing from boot hands out slot 1, then slot 0, and a third probe has
      no slot. */
  lemma ProbeOrder(c1: Client, c2: Client, c3: Client)
    ensures Probe(BOOT, c1).Some? && Probe(BOOT, c1).value.1 == 1
    ensures var r1 := Probe(BOOT, c1).value.0;
      Probe(r1, c2).Some? && Probe(r1, c2).value.1 == 0 &&
      Probe(Probe(r1, c2).value.0, c3).None?
  {
  }

  /** Registry after two probes from boot. */
  function AfterTwo(c1: Client, c2: Client): (r: Registry)
    ensures ValidRegistry(r)
    ensures r.bus == [c2.bus, c1.bus] && r.addr == [c2.addr, c1.addr]
  {
    ProbeOrder(c1, c2, c1);
    Probe(Probe(BOOT, c1).value.0, c2).value.0
  }

  /** With only the first device probed, it resolves to the slot its probe
      gave it, since no adapter number is -1. */
  lemma FirstProbeResolves(c1: Client)
    ensures var r1 := Probe(BOOT, c1).value.0;
      ValidRegistry(r1) && Resolve(r1, Some(c1)) == Probe(BOOT, c1).value.1
  {
  }

  /** Once both devices are probed, each resolves to the slot its probe gave
      it exactly when they sit on different buses, or share a bus and the
      second one probed (slot 0) is the one at `DEVICE_ADDR_1`. */
  lemma ResolveAgreesWithProbe(c1: Client, c2: Client)
    ensures var r := AfterTwo(c1, c2);
      (Resolve(r, Some(c1)) == 1 && Resolve(r, Some(c2)) == 0) <==>
      (c1.bus != c2.bus || (c2.addr == DEVICE_ADDR_1 && c1.addr != DEVICE_ADDR_1))
  {
  }

  /* ------------------------------------------------------------ channels */

  /** The channel at boot: the bottom actuator. */
  const BOOT_CHANNEL: int := 1

  /** `channel_store`: channels 1..3 are taken as given, anything else
      becomes 1. */
  function ChannelStore(val: int): (ch: int)
    ensures 1 <= ch <= 3
    ensures ch == val <==> 0 < val < 4
    ensures ch != val ==> ch == 1
  {
    if 0 < val < 4 then val else 1
  }

  /** Function 3 of `dw791x_vibrator_control`: the channel is the low two
      bits of the 16-bit parameter, so 0 ("none") gets through. */
  function ChannelSelect(param: int): (ch: int)
    requires 0 <= param < 0x1_0000
    ensures 0 <= ch <= 3 && param == (param / 4) * 4 + ch
  {
    param % 4
  }

  /** The slot a sysfs handler uses for channel `ch`: 1 and 2 are slots 0 and
      1; 3 ("all") and any other value fall back to slot 0. */
  function ChannelIndex(ch: int): (index: int)
    ensures 0 <= index < NUM_ACTUATORS
    ensures index == 1 <==> ch == 2
  {
    var index := if ch >= 3 then 0 else ch - 1;
    if index < 0 then 0 else index
  }

  /** Whatever a user stores or selects, the handlers address a real slot,
      and the second slot only for channel 2. */
  lemma ChannelAlwaysInRange(val: int, param: int)
    requires 0 <= param < 0x1_0000
    ensures ChannelIndex(ChannelStore(val)) == (if val == 2 then 1 else 0)
    ensures ChannelIndex(ChannelSelect(param)) == (if param % 4 == 2 then 1 else 0)
    ensures ChannelIndex(BOOT_CHANNEL) == 0
  {
  }
}
