/**
 * The packet transport the client is bound to: one per characteristic. Inbound
 * notifications wait in a queue; a read takes the oldest one, and outbound writes
 * are appended to a log.
 */
module Transport {
  import opened Base

  type Packet = seq<byte>

  /** The packet a read delivers: the oldest queued one, or the empty packet (length 0) when none is queued. */
  function NextPacket(inbox: seq<Packet>): Packet {
    if inbox == [] then [] else inbox[0]
  }

  /** The queue after one read. */
  function Rest(inbox: seq<Packet>): seq<Packet> {
    if inbox == [] then [] else inbox[1..]
  }

  class PacketBuffer {
    /** The characteristic's maximum payload; the remote never sends a longer packet. */
    const maxLength: nat
    /** Notifications received and not yet read, oldest first. */
    var inbox: seq<Packet>
    /** Every packet written so far, oldest first. */
    var sent: seq<Packet>

    ghost predicate Valid()
      reads this
    {
      forall p | p in inbox :: |p| <= maxLength
    }

    constructor (maxLength: nat)
      ensures Valid()
      ensures this.maxLength == maxLength && inbox == [] && sent == []
    {
      this.maxLength := maxLength;
      inbox := [];
      sent := [];
    }

    /** The remote device delivers one notification. */
    method Notify(packet: Packet)
      requires Valid() && |packet| <= maxLength
      modifies this
      ensures Valid()
      ensures inbox == old(inbox) + [packet] && sent == old(sent)
    {
      inbox := inbox + [packet];
    }

    /**
     * Copies the oldest queued packet into the front of `buf` and returns its
     * length; returns 0 and leaves `buf` alone when nothing is queued.
     */
    method ReadInto(buf: array<byte>) returns (n: nat)
      requires Valid() && maxLength <= buf.Length
      modifies this, buf
      ensures Valid()
      ensures n == |NextPacket(old(inbox))| <= maxLength
      ensures buf[..n] == NextPacket(old(inbox))
      ensures forall j | n <= j < buf.Length :: buf[j] == old(buf[j])
      ensures inbox == Rest(old(inbox)) && sent == old(sent)
    {
      if inbox == [] {
        return 0;
      }
      var packet := inbox[0];
      n := 0;
      while n < |packet|
        invariant n <= |packet| <= buf.Length
        invariant buf[..n] == packet[..n]
        invariant forall j | n <= j < buf.Length :: buf[j] == old(buf[j])
        modifies buf
      {
        buf[n] := packet[n];
        n := n + 1;
      }
      inbox := inbox[1..];
    }

    /** Writes one packet to the remote device. */
    method Write(data: Packet)
      modifies this
      ensures sent == old(sent) + [data] && inbox == old(inbox)
    {
      sent := sent + [data];
    }
  }
}
