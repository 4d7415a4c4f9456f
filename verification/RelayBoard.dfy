/** Relay outputs: the checks of board_config.cpp, and the two back ends of relay_manager.cpp,
    GPIO pins and the output byte of a TCA9554. */
module RelayBoard {
  const MAX_RELAYS: nat := 8

  datatype Kind = NoRelays | Gpio | Tca9554

  datatype Hardware = Hardware(kind: Kind, count: nat, activeLevel: nat, channels: seq<int>)

  predicate Unique(channels: seq<int>, count: nat)
    requires count <= |channels|
  {
    forall i, j | 0 <= i < j < count :: channels[i] != channels[j]
  }

  /** unique_channels. */
  method UniqueChannels(channels: seq<int>, count: nat) returns (unique: bool)
    requires count <= |channels|
    ensures unique <==> Unique(channels, count)
  {
    for i := 0 to count
      invariant forall a, b | 0 <= a < i && a < b < count :: channels[a] != channels[b]
    {
      for j := i + 1 to count
        invariant forall b | i < b < j :: channels[i] != channels[b]
      {
        if channels[i] == channels[j] {
          return false;
        }
      }
    }
    unique := true;
  }

  /** What the relay manager may rely on. */
  predicate Usable(hw: Hardware) {
    && |hw.channels| == MAX_RELAYS
    && !hw.kind.NoRelays? && 1 <= hw.count <= MAX_RELAYS && hw.activeLevel <= 1
    && Unique(hw.channels, hw.count)
    && (hw.kind.Tca9554? ==> forall i | 0 <= i < hw.count :: 0 <= hw.channels[i] < 8)
  }

  /** The relay part of validate_config. Which GPIOs can drive an output is the chip's. */
  method ValidateRelays(hw: Hardware, i2cPresent: bool, i2cAddress: nat, outputCapable: set<int>)
    returns (ok: bool)
    requires |hw.channels| == MAX_RELAYS
    ensures Usable(hw) <==>
      && hw.kind != NoRelays && 1 <= hw.count < 9 && hw.activeLevel in {0, 1}
      && (forall i, j | 0 <= i < j < hw.count :: hw.channels[i] != hw.channels[j])
      && (hw.kind.Tca9554? ==> forall i | 0 <= i < hw.count :: hw.channels[i] in {0, 1, 2, 3, 4, 5, 6, 7})
    ensures ok <==>
      && Usable(hw)
      && (hw.kind.Gpio? ==> forall i | 0 <= i < hw.count :: hw.channels[i] in outputCapable)
      && (hw.kind.Tca9554? ==> i2cPresent && 0 < i2cAddress <= 0x7f)
  {
    if hw.kind.NoRelays? || hw.count == 0 || hw.count > MAX_RELAYS || hw.activeLevel > 1 {
      return false;
    }
    ok := UniqueChannels(hw.channels, hw.count);
    if !ok {
      return;
    }
    if hw.kind.Gpio? {
      for i := 0 to hw.count
        invariant ok && forall k | 0 <= k < i :: hw.channels[k] in outputCapable
      {
        if hw.channels[i] !in outputCapable {
          return false;
        }
      }
    } else {
      if !i2cPresent || i2cAddress == 0 || i2cAddress > 0x7f {
        return false;
      }
      for i := 0 to hw.count
        invariant ok && forall k | 0 <= k < i :: 0 <= hw.channels[k] < 8
      {
        if hw.channels[i] < 0 || hw.channels[i] >= 8 {
          return false;
        }
      }
    }
  }

  // ---- Bits --------------------------------------------------------------------------

  /** 1 << c. */
  function Mask(c: nat): bv8
    requires c < 8
  {
    if c == 0 then 1 else if c == 1 then 2 else if c == 2 then 4 else if c == 3 then 8
    else if c == 4 then 16 else if c == 5 then 32 else if c == 6 then 64 else 128
  }

  predicate Bit(b: bv8, c: nat)
    requires c < 8
  {
    b & Mask(c) != 0
  }

  /** Channel c is bit c of the output register, counted from the least significant. */
  lemma BitIsShift(b: bv8)
    ensures Bit(b, 0) == (b & 1 == 1) && Bit(b, 1) == ((b >> 1) & 1 == 1)
    ensures Bit(b, 2) == ((b >> 2) & 1 == 1) && Bit(b, 3) == ((b >> 3) & 1 == 1)
    ensures Bit(b, 4) == ((b >> 4) & 1 == 1) && Bit(b, 5) == ((b >> 5) & 1 == 1)
    ensures Bit(b, 6) == ((b >> 6) & 1 == 1) && Bit(b, 7) == ((b >> 7) & 1 == 1)
  {
  }

  lemma SetBit(b: bv8, c: nat, d: nat)
    requires c < 8 && d < 8
    ensures Bit(b | Mask(c), d) == (d == c || Bit(b, d))
  {
    if c != d {
      assert Mask(c) & Mask(d) == 0;
    }
  }

  lemma ClearBit(b: bv8, c: nat, d: nat)
    requires c < 8 && d < 8
    ensures Bit(b & !Mask(c), d) == (d != c && Bit(b, d))
  {
    if c != d {
      assert Mask(c) & Mask(d) == 0;
    }
  }

  function WithBit(b: bv8, c: nat, level: bool): bv8
    requires c < 8
  {
    if level then b | Mask(c) else b & !Mask(c)
  }

  lemma WithBitBits(b: bv8, c: nat, level: bool)
    requires c < 8
    ensures forall d: nat | d < 8 :: Bit(WithBit(b, c, level), d) == if d == c then level else Bit(b, d)
  {
    forall d: nat | d < 8 ensures Bit(WithBit(b, c, level), d) == if d == c then level else Bit(b, d) {
      SetBit(b, c, d);
      ClearBit(b, c, d);
    }
  }

  // ---- The outputs -------------------------------------------------------------------

  /** output_level_for. */
  predicate High(hw: Hardware, relayOn: bool) {
    relayOn == (hw.activeLevel != 0)
  }

  class Outputs {
    const hw: Hardware
    const reliable: bool             // no write fails
    var pins: map<int, bool>         // GPIO levels
    var tcaOutput: bv8               // g_tca_output
    var chip: bv8                    // the output register itself

    predicate Driven(channel: int) {
      match hw.kind
      case NoRelays => false
      case Gpio => true
      case Tca9554 => 0 <= channel < 8
    }

    /** The level the manager holds a channel at. */
    predicate Line(channel: int)
      requires Driven(channel)
      reads this
    {
      if hw.kind.Gpio? then channel in pins && pins[channel] else Bit(tcaOutput, channel)
    }

    /** Configured: every relay inactive, and so is every other bit of a TCA9554. */
    constructor (hw: Hardware, reliable: bool)
      requires Usable(hw)
      ensures this.hw == hw && this.reliable == reliable && chip == tcaOutput
      ensures forall r | 0 <= r < hw.count :: Line(hw.channels[r]) == High(hw, false)
      ensures hw.kind.Tca9554? ==> forall c | 0 <= c < 8 :: Line(c) == High(hw, false)
    {
      this.hw, this.reliable := hw, reliable;
      pins := map r | 0 <= r < hw.count :: hw.channels[r] := hw.activeLevel == 0;
      tcaOutput := if hw.activeLevel == 0 then 0xff else 0;
      chip := if hw.activeLevel == 0 then 0xff else 0;
    }

    /** An I2C or GPIO write; one that fails may have reached the chip or not. */
    method Transmit(value: bv8) returns (ok: bool)
      modifies this`chip
      ensures ok ==> chip == value
      ensures reliable ==> ok
    {
      ok :| reliable ==> ok;
      var reached :| ok ==> reached;
      if reached {
        chip := value;
      }
    }

    method SetPin(channel: int, level: bool) returns (ok: bool)
      requires hw.kind.Gpio?
      modifies this`pins
      ensures pins == if ok then old(pins)[channel := level] else old(pins)
      ensures reliable ==> ok
    {
      ok :| reliable ==> ok;
      if ok {
        pins := pins[channel := level];
      }
    }

    method SetTca(channel: nat, level: bool) returns (ok: bool)
      requires channel < 8
      modifies this`tcaOutput, this`chip
      ensures tcaOutput == if ok then WithBit(old(tcaOutput), channel, level) else old(tcaOutput)
      ensures ok ==> chip == tcaOutput
      ensures reliable ==> ok
    {
      var mask := Mask(channel);
      var next := tcaOutput;
      if level {
        next := next | mask;
      } else {
        next := next & !mask;
      }
      ok := Transmit(next);
      if ok {
        tcaOutput := next;
      }
    }

    /** hardware_set_output: on success the channel has the level and no other channel changed;
        on failure none did. */
    method Set(channel: int, relayOn: bool) returns (ok: bool)
      requires Driven(channel)
      modifies this
      ensures Line(channel) == if ok then High(hw, relayOn) else old(Line(channel))
      ensures forall c | Driven(c) && c != channel :: Line(c) == old(Line(c))
      ensures ok && hw.kind.Tca9554? ==> chip == tcaOutput
      ensures ok && hw.activeLevel == 1 ==> Line(channel) == relayOn
      ensures ok && hw.activeLevel == 0 ==> Line(channel) == !relayOn
      ensures ok && hw.kind.Gpio? ==> channel in pins && pins[channel] == Line(channel)
      ensures reliable ==> ok
    {
      if hw.kind.Gpio? {
        ok := SetPin(channel, High(hw, relayOn));
      } else {
        WithBitBits(tcaOutput, channel, High(hw, relayOn));
        ok := SetTca(channel, High(hw, relayOn));
      }
    }
  }
}
