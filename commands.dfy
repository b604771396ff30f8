/**
 * Capability-gated remote commands: before each command the client reads at most
 * one notification from the Remote Command characteristic, which lists the command
 * ids the media app supports, and then decides whether to write the command byte.
 */
module Commands {
  import opened Base
  import opened Transport

  /** The Remote Command characteristic's maximum payload, and so the longest supported-command list. */
  const RemoteCommandMaxLength := 13

  /** The outcome of one command: its result, the supported list and queue after it, and the packet written, if any. */
  datatype CommandStep = CommandStep(result: Outcome, supported: seq<byte>, inbox: seq<Packet>, write: Option<Packet>)

  function CommandSpec(supported: seq<byte>, inbox: seq<Packet>, commandId: byte): (c: CommandStep)
    ensures c.inbox == Rest(inbox)
    ensures |NextPacket(inbox)| > 0 ==> c.supported == NextPacket(inbox)
    ensures |NextPacket(inbox)| == 0 ==> c.supported == supported
    ensures c.write.Some? <==> commandId in c.supported
    ensures c.write.Some? ==> c.write.value == [commandId] && c.result == Pass
    ensures c.write.None? && c.result == Pass <==> c.supported == []
    ensures c.result == Fail(UnsupportedCommand) <==> c.supported != [] && commandId !in c.supported
    ensures c.result == Pass || c.result == Fail(UnsupportedCommand)
  {
    var packet := NextPacket(inbox);
    var refreshed := if |packet| > 0 then packet else supported;
    if commandId !in refreshed then
      if refreshed == [] then CommandStep(Pass, refreshed, Rest(inbox), None)
      else CommandStep(Fail(UnsupportedCommand), refreshed, Rest(inbox), None)
    else CommandStep(Pass, refreshed, Rest(inbox), Some([commandId]))
  }

  /**
   * Once the remote has advertised a non-empty list, a command outside the list
   * currently advertised is rejected and writes nothing, whatever was queued.
   */
  lemma PopulatedListGates(supported: seq<byte>, inbox: seq<Packet>, commandId: byte)
    requires supported != []
    ensures CommandSpec(supported, inbox, commandId).supported != []
    ensures var c := CommandSpec(supported, inbox, commandId);
      commandId !in c.supported ==> c.result == Fail(UnsupportedCommand) && c.write == None
  {
  }

  /** Every supported list the client holds came from a packet, so it has at most 13 ids. */
  lemma SupportedListBounded(supported: seq<byte>, inbox: seq<Packet>, commandId: byte)
    requires |supported| <= RemoteCommandMaxLength
    requires forall p | p in inbox :: |p| <= RemoteCommandMaxLength
    ensures |CommandSpec(supported, inbox, commandId).supported| <= RemoteCommandMaxLength
  {
  }

  /**
   * The remote advertises play, pause, next and previous (0, 1, 3, 4): toggle
   * (2) is rejected with no write, and a following play (0) writes the byte 0.
   */
  lemma AdvertisedListScenario()
    ensures var first := CommandSpec([], [[0, 1, 3, 4]], 2);
      && first.result == Fail(UnsupportedCommand) && first.write == None
      && var second := CommandSpec(first.supported, first.inbox, 0);
      second.result == Pass && second.write == Some([0])
  {
  }
}
