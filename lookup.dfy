/**
 * What one attribute read does, as a function of the cache and the queue of
 * Entity Update notifications: one update step; on a hit, the cached entry; on a
 * miss, one sibling request, the key marked as requested (`None`), a second update
 * step and then whatever is cached for the key.
 */
module AttributeLookup {
  import opened Base
  import opened Transport
  import opened EntityUpdate
  import opened Siblings

  /** The outcome of one read: its result, the cache and queue after it, and the request it wrote, if any. */
  datatype LookupStep = LookupStep(result: Result<Option<Text>>, store: Store, inbox: seq<Packet>, request: Option<Packet>)

  /** The request written on a miss: the entity id followed by the sibling list. */
  function SiblingRequest(order: seq<Key>, key: Key): Packet {
    [key.entity] + FirstOccurrences([key.attribute] + AttrsOf(key.entity, order))
  }

  function LookupSpec(s: Store, inbox: seq<Packet>, key: Key): (l: LookupStep)
    ensures s.Valid() ==> l.store.Valid()
    ensures s.values.Keys <= l.store.values.Keys
    ensures key in s.values ==> l.request == None
    ensures l.request.Some? ==> key in l.store.values
    ensures l.result.Success? ==> key in l.store.values && l.result.value == l.store.values[key]
    ensures l.result.Failure? ==> l.result.error == PacketTooShort
    ensures l.result.Failure? && l.request == None ==> l.store == s
    ensures var a := Absorb(s, NextPacket(inbox));
      a.Success? && key in a.value.values ==> l == LookupStep(Success(a.value.values[key]), a.value, Rest(inbox), None)
    ensures var a := Absorb(s, NextPacket(inbox)); var p := NextPacket(Rest(inbox));
      a.Success? && key !in a.value.values ==>
        l.inbox == Rest(Rest(inbox)) && l.request == Some(SiblingRequest(a.value.order, key)) &&
        (|p| == 0 ==> l.result == Success(None) && l.store.values == a.value.values[key := None]) &&
        (0 < |p| < 3 ==> l.result == Failure(PacketTooShort) && l.store.values == a.value.values[key := None]) &&
        (|p| >= 3 ==> l.store.values == a.value.values[key := None][Key(p[0], p[1]) := Some(p[3..])]) &&
        l.store.order == a.value.order + [key] +
          (if |p| >= 3 && Key(p[0], p[1]) != key && Key(p[0], p[1]) !in a.value.values then [Key(p[0], p[1])] else [])
    ensures Absorb(s, NextPacket(inbox)).Failure? ==> l == LookupStep(Failure(PacketTooShort), s, Rest(inbox), None)
  {
    match Absorb(s, NextPacket(inbox))
    case Failure(e) => LookupStep(Failure(e), s, Rest(inbox), None)
    case Success(s1) =>
      if key in s1.values then LookupStep(Success(s1.values[key]), s1, Rest(inbox), None)
      else
        var request := SiblingRequest(s1.order, key);
        var s2 := s1.Put(key, None);
        match Absorb(s2, NextPacket(Rest(inbox)))
        case Failure(e) => LookupStep(Failure(e), s2, Rest(Rest(inbox)), Some(request))
        case Success(s3) => LookupStep(Success(s3.values[key]), s3, Rest(Rest(inbox)), Some(request))
  }

  /**
   * On a miss the request is exactly the entity id, the requested attribute id,
   * and the attribute ids of the entity's cached keys in cache order.
   */
  lemma LookupMissRequest(s: Store, inbox: seq<Packet>, key: Key)
    requires s.Valid()
    requires Absorb(s, NextPacket(inbox)).Success?
    requires key !in Absorb(s, NextPacket(inbox)).value.values
    ensures var s1 := Absorb(s, NextPacket(inbox)).value;
      LookupSpec(s, inbox, key).request == Some([key.entity, key.attribute] + AttrsOf(key.entity, s1.order))
  {
    var s1 := Absorb(s, NextPacket(inbox)).value;
    assert key !in s1.order;
    SiblingsOfUncachedKey(s1.order, key.entity, key.attribute);
    assert SiblingRequest(s1.order, key) == [key.entity, key.attribute] + AttrsOf(key.entity, s1.order);
  }

  /**
   * A miss whose second update step reads nothing, or a notification for another
   * key, writes a request and reads as `None`.
   */
  lemma LookupNoReply(s: Store, inbox: seq<Packet>, key: Key)
    requires var p := NextPacket(Rest(inbox)); |p| == 0 || (|p| >= 3 && Key(p[0], p[1]) != key)
    requires Absorb(s, NextPacket(inbox)).Success?
    requires key !in Absorb(s, NextPacket(inbox)).value.values
    ensures LookupSpec(s, inbox, key).result == Success(None)
    ensures LookupSpec(s, inbox, key).request.Some?
  {
  }

  /**
   * A miss whose second update step reads the reply for the key returns the
   * reply's value, after writing the request and consuming two packets.
   */
  lemma LookupReply(s: Store, inbox: seq<Packet>, key: Key)
    requires var p := NextPacket(Rest(inbox)); |p| >= 3 && Key(p[0], p[1]) == key
    requires Absorb(s, NextPacket(inbox)).Success?
    requires key !in Absorb(s, NextPacket(inbox)).value.values
    ensures LookupSpec(s, inbox, key).result == Success(Some(NextPacket(Rest(inbox))[3..]))
    ensures LookupSpec(s, inbox, key).request.Some?
    ensures LookupSpec(s, inbox, key).inbox == Rest(Rest(inbox))
  {
  }

  /**
   * Once a read has written its request (or returned a value), every later read of
   * the same key, whatever has arrived meanwhile, writes no request.
   */
  lemma LookupRequestsOnce(s: Store, inbox: seq<Packet>, later: seq<Packet>, key: Key)
    requires LookupSpec(s, inbox, key).request.Some? || LookupSpec(s, inbox, key).result.Success?
    ensures LookupSpec(LookupSpec(s, inbox, key).store, later, key).request == None
  {
  }

  /**
   * A miss on the track title while the artist and album are cached asks for the
   * title first and then the artist and album: the bytes 2, 2, 0, 1.
   */
  lemma TitleMissRequest(artist: Text, album: Text)
    ensures var s := Store([Key(2, 0), Key(2, 1)], map[Key(2, 0) := Some(artist), Key(2, 1) := Some(album)]);
      LookupSpec(s, [], Key(2, 2)).request == Some([2, 2, 0, 1])
  {
    var s := Store([Key(2, 0), Key(2, 1)], map[Key(2, 0) := Some(artist), Key(2, 1) := Some(album)]);
    assert s.Valid();
    LookupMissRequest(s, [], Key(2, 2));
    var order := [Key(2, 0), Key(2, 1)];
    assert order[..1] == [Key(2, 0)];
    assert AttrsOf(2, order[..1]) == [0] by {
      assert order[..1][..0] == [];
    }
    assert AttrsOf(2, order) == [0, 1];
    assert Absorb(s, NextPacket([])) == Success(s);
    assert [2 as byte, 2] + AttrsOf(2, s.order) == [2, 2, 0, 1];
  }

  /**
   * A title notification that arrived before the read is returned by it, and the
   * read writes nothing.
   */
  lemma TitleFromNotification(title: Text)
    ensures LookupSpec(EmptyStore, [[2, 2, 0] + title], Key(2, 2)) ==
      LookupStep(Success(Some(title)), Store([Key(2, 2)], map[Key(2, 2) := Some(title)]), [], None)
  {
    var p: Packet := [2, 2, 0] + title;
    assert p[3..] == title;
  }
}
