/** The receive side of a battery probe: notifications gather in a 128-byte buffer, and after
    each one the buffer is searched for the answer. */
module JbdReceiver {
  import opened Bytes
  import opened Jbd

  const RX_BYTES: nat := 128
  const CHUNK_BYTES: nat := 64

  ghost predicate HasPacket(data: seq<byte>, command: byte) {
    exists o: nat, n: nat :: IsPacket(data, command, o, n)
  }

  datatype Consumed = Ignored | CopyFailed | Overflowed | Appended

  class Receiver {
    const rx: array<byte>
    var rxLen: nat
    var expectedCommand: byte
    var packetOffset: nat
    var packetLen: nat
    var packetDone: bool             // kProbePacketDoneBit

    constructor ()
      ensures Valid() && Data() == [] && expectedCommand == 0 && !packetDone && fresh(rx)
    {
      rx := new byte[RX_BYTES](_ => 0);
      rxLen, expectedCommand, packetOffset, packetLen, packetDone := 0, 0, 0, 0, false;
    }

    ghost predicate Valid()
      reads this
    {
      rx.Length == RX_BYTES && rxLen <= RX_BYTES
    }

    ghost function Data(): seq<byte>
      requires Valid()
      reads this, rx
    {
      rx[..rxLen]
    }

    /** The start of send_jbd_request. */
    method Expect(command: byte)
      requires Valid()
      modifies this
      ensures Valid() && Data() == [] && expectedCommand == command && !packetDone
    {
      expectedCommand, rxLen, packetOffset, packetLen, packetDone := command, 0, 0, 0, false;
    }

    /** memcpy into the buffer. */
    method CopyAt(at: nat, data: seq<byte>)
      requires Valid() && at + |data| <= RX_BYTES
      modifies rx
      ensures rx[..at] == old(rx[..at]) && rx[at..at + |data|] == data
      ensures rx[at + |data|..] == old(rx[at + |data|..])
    {
      for i := 0 to |data|
        invariant rx[..at] == old(rx[..at]) && rx[at..at + i] == data[..i]
        invariant rx[at + |data|..] == old(rx[at + |data|..])
      {
        rx[at + i] := data[i];
      }
    }

    /** The two copies: the first bytes go through a chunk on the stack, the rest directly. */
    method CopyIn(om: seq<byte>)
      requires Valid() && rxLen + |om| <= RX_BYTES
      modifies rx
      ensures rx[..rxLen + |om|] == old(rx[..rxLen]) + om
    {
      var copyLen := if |om| < CHUNK_BYTES then |om| else CHUNK_BYTES;
      var chunk := om[..copyLen];
      ghost var before := rx[..rxLen];
      if |om| > copyLen {
        CopyAt(rxLen + copyLen, om[copyLen..]);
        assert rx[..rxLen] == rx[..rxLen + copyLen][..rxLen];
      }
      ghost var after := rx[rxLen + copyLen..];
      assert |om| > copyLen ==> after[..|om| - copyLen] == om[copyLen..];
      CopyAt(rxLen, chunk);
      ThreeParts(rx[..], rxLen, copyLen, |om|, before, om);
    }

    method Search()
      requires Valid() && expectedCommand != 0
      modifies this`packetOffset, this`packetLen, this`packetDone
      ensures HasPacket(Data(), expectedCommand) ==>
        packetDone && IsPacket(Data(), expectedCommand, packetOffset, packetLen)
      ensures !HasPacket(Data(), expectedCommand) ==>
        packetDone == old(packetDone) && packetOffset == old(packetOffset) && packetLen == old(packetLen)
    {
      var found, offset, length := FindPacket(rx[..rxLen], expectedCommand);
      if found {
        packetOffset, packetLen, packetDone := offset, length, true;
      }
    }

    /** consume_jbd_notification; copied says whether the buffer could be copied, forUs whether
        the handle is the probe's. */
    method Consume(om: seq<byte>, forUs: bool, copied: bool) returns (r: Consumed)
      requires Valid()
      modifies this`rxLen, this`packetOffset, this`packetLen, this`packetDone, rx
      ensures Valid()
      ensures r.Appended? <==> om != [] && forUs && copied && old(rxLen) + |om| <= 128
      ensures r.Overflowed? <==> om != [] && forUs && copied && old(rxLen) + |om| > 128
      ensures r.Appended? ==> Data() == old(Data()) + om
      ensures r.Overflowed? ==> Data() == []
      ensures r.Ignored? || r.CopyFailed? ==> Data() == old(Data())
      ensures r.Appended? && expectedCommand != 0 && HasPacket(Data(), expectedCommand) ==>
        packetDone && IsPacket(Data(), expectedCommand, packetOffset, packetLen)
      ensures !r.Appended? || expectedCommand == 0 || !HasPacket(Data(), expectedCommand) ==>
        packetDone == old(packetDone) && packetOffset == old(packetOffset) && packetLen == old(packetLen)
    {
      if |om| == 0 {
        return Ignored;
      }
      if !copied {
        return CopyFailed;
      }
      if !forUs {
        return Ignored;
      }
      if rxLen + |om| > RX_BYTES {
        rxLen := 0;
        return Overflowed;
      }
      CopyIn(om);
      rxLen := rxLen + |om|;
      if expectedCommand != 0 {
        Search();
      }
      r := Appended;
    }

    /** An answer that comes in notifications of any sizes, up to 128 bytes of them: the packet
        found at the end is the one that a search of the whole would find. */
    method ReceiveAll(command: byte, notifications: seq<seq<byte>>)
      requires Valid() && command != 0 && |Flatten(notifications)| <= RX_BYTES
      modifies this, rx
      ensures Valid() && Data() == Flatten(notifications) && expectedCommand == command
      ensures packetDone <==> HasPacket(Flatten(notifications), command)
      ensures packetDone ==> IsPacket(Flatten(notifications), command, packetOffset, packetLen)
    {
      Expect(command);
      NoPacketInNothing(command);
      for i := 0 to |notifications|
        invariant Valid() && expectedCommand == command && Data() == Flatten(notifications[..i])
        invariant packetDone <==> HasPacket(Data(), command)
        invariant packetDone ==> IsPacket(Data(), command, packetOffset, packetLen)
      {
        FlattenTake(notifications, i);
        FlattenLonger(notifications, i + 1);
        ghost var before := Data();
        assert rxLen == |before| && |before| + |notifications[i]| <= RX_BYTES;
        assert notifications[i] == [] ==> before + notifications[i] == before;
        var r := Consume(notifications[i], true, true);
        assert Data() == before + notifications[i];
        StillThere(before, notifications[i], command);
      }
      assert notifications[..|notifications|] == notifications;
    }
  }

  lemma ThreeParts(all: seq<byte>, at: nat, copied: nat, length: nat, before: seq<byte>, om: seq<byte>)
    requires |before| == at && |om| == length && copied <= length && at + length <= |all|
    requires all[..at] == before && all[at..at + copied] == om[..copied]
    requires copied < length ==> all[at + copied..][..length - copied] == om[copied..]
    ensures all[..at + length] == before + om
  {
    forall i | 0 <= i < length ensures all[at + i] == om[i] {
      if i < copied {
        assert all[at..at + copied][i] == om[..copied][i];
      } else {
        assert all[at + copied..][..length - copied][i - copied] == om[copied..][i - copied];
      }
    }
  }

  lemma NoPacketInNothing(command: byte)
    ensures !HasPacket([], command)
  {
  }

  lemma FlattenLonger(pieces: seq<seq<byte>>, k: nat)
    requires k <= |pieces|
    ensures |Flatten(pieces[..k])| <= |Flatten(pieces)|
    decreases |pieces| - k
  {
    if k < |pieces| {
      FlattenTake(pieces, k);
      FlattenLonger(pieces, k + 1);
    } else {
      assert pieces[..k] == pieces;
    }
  }

  /** A packet that was there is there still. */
  lemma StillThere(data: seq<byte>, more: seq<byte>, command: byte)
    ensures HasPacket(data, command) ==> HasPacket(data + more, command)
  {
    if HasPacket(data, command) {
      var o: nat, n: nat :| IsPacket(data, command, o, n);
      PacketStays(data, more, command, o, n);
    }
  }
}
