/**
 * The Apple Media Service client: a cache of media attributes filled from Entity
 * Update notifications and requested on demand, the playback-state flags read
 * from it, and the fourteen remote commands gated by the list of commands the
 * media app supports.
 */
module AppleMedia {
  import opened Base
  import opened Transport
  import opened EntityUpdate
  import opened Siblings
  import opened AttributeLookup
  import opened Commands
  import opened Playback

  /** The Entity Update characteristic's maximum payload. */
  const EntityUpdateMaxLength := 128

  /** The named attributes the service exposes. */
  datatype MediaAttribute =
    | PlayerName | PlaybackInfo | Volume
    | QueueIndex | QueueLength | ShuffleMode | RepeatMode
    | Artist | Album | Title | Duration

  /** The attribute-key table: entity 0 is the player, 1 the queue, 2 the track. */
  function KeyOf(a: MediaAttribute): (k: Key)
    ensures k.entity <= 2
    ensures AttributeAt(k) == Some(a)
  {
    match a
    case PlayerName => Key(0, 0)
    case PlaybackInfo => Key(0, 1)
    case Volume => Key(0, 2)
    case QueueIndex => Key(1, 0)
    case QueueLength => Key(1, 1)
    case ShuffleMode => Key(1, 2)
    case RepeatMode => Key(1, 3)
    case Artist => Key(2, 0)
    case Album => Key(2, 1)
    case Title => Key(2, 2)
    case Duration => Key(2, 3)
  }

  /** The named attribute a key stands for, if any. */
  function AttributeAt(k: Key): Option<MediaAttribute> {
    if k == Key(0, 0) then Some(PlayerName)
    else if k == Key(0, 1) then Some(PlaybackInfo)
    else if k == Key(0, 2) then Some(Volume)
    else if k == Key(1, 0) then Some(QueueIndex)
    else if k == Key(1, 1) then Some(QueueLength)
    else if k == Key(1, 2) then Some(ShuffleMode)
    else if k == Key(1, 3) then Some(RepeatMode)
    else if k == Key(2, 0) then Some(Artist)
    else if k == Key(2, 1) then Some(Album)
    else if k == Key(2, 2) then Some(Title)
    else if k == Key(2, 3) then Some(Duration)
    else None
  }

  class AppleMediaService {
    /** The Entity Update characteristic. */
    const entityUpdate: PacketBuffer
    /** The Remote Command characteristic. */
    const remoteCommand: PacketBuffer
    /** Receives Entity Update notifications. */
    const buffer: array<byte>
    /** Receives the supported-command list. */
    const commandBuffer: array<byte>
    /** Holds the command byte being written. */
    const cmd: array<byte>
    /** The attribute cache. */
    var store: Store
    /** The command ids the media app last advertised; empty until it advertises any. */
    var supportedCommands: seq<byte>

    ghost predicate Valid()
      reads this, entityUpdate, remoteCommand
    {
      && entityUpdate.maxLength == EntityUpdateMaxLength && entityUpdate.Valid()
      && remoteCommand.maxLength == RemoteCommandMaxLength && remoteCommand.Valid()
      && buffer.Length == EntityUpdateMaxLength
      && commandBuffer.Length == RemoteCommandMaxLength
      && cmd.Length == 1
      && store.Valid()
      && |supportedCommands| <= RemoteCommandMaxLength
    }

    constructor ()
      ensures Valid()
      ensures fresh(entityUpdate) && fresh(remoteCommand) && fresh(buffer) && fresh(commandBuffer) && fresh(cmd)
      ensures entityUpdate.inbox == [] && entityUpdate.sent == []
      ensures remoteCommand.inbox == [] && remoteCommand.sent == []
      ensures store == EmptyStore && supportedCommands == []
    {
      entityUpdate := new PacketBuffer(EntityUpdateMaxLength);
      remoteCommand := new PacketBuffer(RemoteCommandMaxLength);
      buffer := new byte[EntityUpdateMaxLength];
      commandBuffer := new byte[RemoteCommandMaxLength];
      cmd := new byte[1];
      store := EmptyStore;
      supportedCommands := [];
    }

    /** Reads at most one Entity Update notification into the cache. */
    method Update() returns (r: Outcome)
      requires Valid()
      modifies this`store, entityUpdate, buffer
      ensures Valid()
      ensures entityUpdate.inbox == Rest(old(entityUpdate.inbox)) && entityUpdate.sent == old(entityUpdate.sent)
      ensures match Absorb(old(store), NextPacket(old(entityUpdate.inbox)))
        case Success(s) => r == Pass && store == s
        case Failure(e) => r == Fail(e) && store == old(store)
    {
      ghost var packet := NextPacket(entityUpdate.inbox);
      var lengthRead := entityUpdate.ReadInto(buffer);
      if lengthRead > 0 {
        if lengthRead < 3 {
          return Fail(PacketTooShort);
        }
        assert buffer[..lengthRead][0] == buffer[0] && buffer[..lengthRead][1] == buffer[1];
        var entityId, attributeId, flags := buffer[0], buffer[1], buffer[2];
        var value := buffer[3..lengthRead];
        assert value == packet[3..];
        store := store.Put(Key(entityId, attributeId), Some(value));
      }
      return Pass;
    }

    /**
     * Reads one attribute: one update step, then on a miss one sibling request,
     * the key marked as requested, and a second update step.
     */
    method Get(key: Key) returns (r: Result<Option<Text>>)
      requires Valid()
      modifies this`store, entityUpdate, buffer
      ensures Valid()
      ensures var l := LookupSpec(old(store), old(entityUpdate.inbox), key);
        && r == l.result && store == l.store && entityUpdate.inbox == l.inbox
        && entityUpdate.sent == old(entityUpdate.sent) + (if l.request.Some? then [l.request.value] else [])
    {
      var u := Update();
      if u.Fail? {
        return Failure(u.error);
      }
      if key !in store.values {
        var siblings := SiblingIds(key.entity, key.attribute, store.order);
        entityUpdate.Write([key.entity] + siblings);
        store := store.Put(key, None);
        // The library sleeps 50 ms here (`time.sleep(0.05)`) to give the remote time to answer.
        u := Update();
        if u.Fail? {
          return Failure(u.error);
        }
      }
      return Success(store.values[key]);
    }

    /** Reads a named attribute through the key table. */
    method ReadAttribute(a: MediaAttribute) returns (r: Result<Option<Text>>)
      requires Valid()
      modifies this`store, entityUpdate, buffer
      ensures Valid()
      ensures var l := LookupSpec(old(store), old(entityUpdate.inbox), KeyOf(a));
        && r == l.result && store == l.store && entityUpdate.inbox == l.inbox
        && entityUpdate.sent == old(entityUpdate.sent) + (if l.request.Some? then [l.request.value] else [])
    {
      r := Get(KeyOf(a));
    }

    /** One playback-state flag, computed from a fresh read of the playback info. */
    method ReadPlaybackState(state: PlaybackState) returns (r: Result<bool>)
      requires Valid()
      modifies this`store, entityUpdate, buffer
      ensures Valid()
      ensures var l := LookupSpec(old(store), old(entityUpdate.inbox), KeyOf(PlaybackInfo));
        && store == l.store && entityUpdate.inbox == l.inbox
        && entityUpdate.sent == old(entityUpdate.sent) + (if l.request.Some? then [l.request.value] else [])
        && r == match l.result case Failure(e) => Failure(e) case Success(info) => StateFlag(info, state)
    {
      var info := Get(KeyOf(PlaybackInfo));
      if info.Failure? {
        return Failure(info.error);
      }
      r := StateFlag(info.value, state);
    }

    /** One playback-info field (1 is the rate, 2 the elapsed time), from a fresh read of the playback info. */
    method ReadPlaybackInfoField(position: nat) returns (r: Result<Option<Text>>)
      requires Valid()
      modifies this`store, entityUpdate, buffer
      ensures Valid()
      ensures var l := LookupSpec(old(store), old(entityUpdate.inbox), KeyOf(PlaybackInfo));
        && store == l.store && entityUpdate.inbox == l.inbox
        && entityUpdate.sent == old(entityUpdate.sent) + (if l.request.Some? then [l.request.value] else [])
        && r == match l.result case Failure(e) => Failure(e) case Success(info) => InfoField(info, position)
    {
      var info := Get(KeyOf(PlaybackInfo));
      if info.Failure? {
        return Failure(info.error);
      }
      r := InfoField(info.value, position);
    }

    /** The effect of sending command `commandId` with result `r`, as `CommandSpec` describes it. */
    twostate predicate CommandSent(commandId: byte, r: Outcome)
      reads this, remoteCommand
    {
      var c := CommandSpec(old(supportedCommands), old(remoteCommand.inbox), commandId);
      && r == c.result && supportedCommands == c.supported && remoteCommand.inbox == c.inbox
      && remoteCommand.sent == old(remoteCommand.sent) + (if c.write.Some? then [c.write.value] else [])
    }

    /**
     * Refreshes the supported list from at most one notification, then writes the
     * command byte if it is supported, does nothing if no list is known yet, and
     * raises UnsupportedCommand otherwise.
     */
    method SendCommand(commandId: byte) returns (r: Outcome)
      requires Valid()
      modifies this`supportedCommands, remoteCommand, commandBuffer, cmd
      ensures Valid() && CommandSent(commandId, r)
    {
      var i := remoteCommand.ReadInto(commandBuffer);
      if i > 0 {
        supportedCommands := commandBuffer[..i];
      }
      if commandId !in supportedCommands {
        if supportedCommands == [] {
          return Pass;
        }
        return Fail(UnsupportedCommand);
      }
      cmd[0] := commandId;
      remoteCommand.Write(cmd[..]);
      assert cmd[..] == [commandId];
      return Pass;
    }

    method Play() returns (r: Outcome)
      requires Valid()
      modifies this`supportedCommands, remoteCommand, commandBuffer, cmd
      ensures Valid() && CommandSent(0, r)
    {
      r := SendCommand(0);
    }

    method Pause() returns (r: Outcome)
      requires Valid()
      modifies this`supportedCommands, remoteCommand, commandBuffer, cmd
      ensures Valid() && CommandSent(1, r)
    {
      r := SendCommand(1);
    }

    method TogglePlayPause() returns (r: Outcome)
      requires Valid()
      modifies this`supportedCommands, remoteCommand, commandBuffer, cmd
      ensures Valid() && CommandSent(2, r)
    {
      r := SendCommand(2);
    }

    method NextTrack() returns (r: Outcome)
      requires Valid()
      modifies this`supportedCommands, remoteCommand, commandBuffer, cmd
      ensures Valid() && CommandSent(3, r)
    {
      r := SendCommand(3);
    }

    method PreviousTrack() returns (r: Outcome)
      requires Valid()
      modifies this`supportedCommands, remoteCommand, commandBuffer, cmd
      ensures Valid() && CommandSent(4, r)
    {
      r := SendCommand(4);
    }

    method VolumeUp() returns (r: Outcome)
      requires Valid()
      modifies this`supportedCommands, remoteCommand, commandBuffer, cmd
      ensures Valid() && CommandSent(5, r)
    {
      r := SendCommand(5);
    }

    method VolumeDown() returns (r: Outcome)
      requires Valid()
      modifies this`supportedCommands, remoteCommand, commandBuffer, cmd
      ensures Valid() && CommandSent(6, r)
    {
      r := SendCommand(6);
    }

    method AdvanceRepeatMode() returns (r: Outcome)
      requires Valid()
      modifies this`supportedCommands, remoteCommand, commandBuffer, cmd
      ensures Valid() && CommandSent(7, r)
    {
      r := SendCommand(7);
    }

    method AdvanceShuffleMode() returns (r: Outcome)
      requires Valid()
      modifies this`supportedCommands, remoteCommand, commandBuffer, cmd
      ensures Valid() && CommandSent(8, r)
    {
      r := SendCommand(8);
    }

    method SkipForward() returns (r: Outcome)
      requires Valid()
      modifies this`supportedCommands, remoteCommand, commandBuffer, cmd
      ensures Valid() && CommandSent(9, r)
    {
      r := SendCommand(9);
    }

    method SkipBackward() returns (r: Outcome)
      requires Valid()
      modifies this`supportedCommands, remoteCommand, commandBuffer, cmd
      ensures Valid() && CommandSent(10, r)
    {
      r := SendCommand(10);
    }

    method LikeTrack() returns (r: Outcome)
      requires Valid()
      modifies this`supportedCommands, remoteCommand, commandBuffer, cmd
      ensures Valid() && CommandSent(11, r)
    {
      r := SendCommand(11);
    }

    method DislikeTrack() returns (r: Outcome)
      requires Valid()
      modifies this`supportedCommands, remoteCommand, commandBuffer, cmd
      ensures Valid() && CommandSent(12, r)
    {
      r := SendCommand(12);
    }

    method BookmarkTrack() returns (r: Outcome)
      requires Valid()
      modifies this`supportedCommands, remoteCommand, commandBuffer, cmd
      ensures Valid() && CommandSent(13, r)
    {
      r := SendCommand(13);
    }
  }
}
