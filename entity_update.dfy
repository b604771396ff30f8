/**
 * The Entity Update wire format and the attribute cache it fills.
 *
 * An inbound notification is `entity id, attribute id, flags, value bytes...`;
 * the client stores the value under `(entity id, attribute id)` and never looks
 * at the flags. Values are kept as the bytes of their UTF-8 text.
 */
module EntityUpdate {
  import opened Base
  import opened Transport

  datatype Key = Key(entity: byte, attribute: byte)

  /** The UTF-8 bytes of an attribute value. */
  type Text = seq<byte>

  /** A decoded Entity Update notification. */
  datatype Notification = Notification(key: Key, flags: byte, value: Text)

  /** What the remote device sends: a three-byte header and then the value. */
  function Encode(u: Notification): (p: Packet)
    ensures |p| == 3 + |u.value|
    ensures p[0] == u.key.entity && p[1] == u.key.attribute && p[2] == u.flags && p[3..] == u.value
  {
    [u.key.entity, u.key.attribute, u.flags] + u.value
  }

  /** Reads the three header bytes and takes the rest as the value; fewer than three bytes is an error. */
  function Decode(p: Packet): (r: Result<Notification>)
    ensures r.Failure? <==> |p| < 3
    ensures r.Failure? ==> r.error == PacketTooShort
    ensures r.Success? ==> Encode(r.value) == p
  {
    if |p| < 3 then Failure(PacketTooShort)
    else Success(Notification(Key(p[0], p[1]), p[2], p[3..]))
  }

  lemma DecodeEncode(u: Notification)
    ensures Decode(Encode(u)) == Success(u)
  {
  }

  /**
   * The attribute cache: a dictionary from keys to a value or to `None` (requested
   * and not yet received). `order` is the dictionary's insertion order, and the
   * model takes it as the order in which iterating over the dictionary visits the
   * keys (the Python language rule; a runtime whose `dict` is an unordered hash map
   * may visit them in another order).
   */
  datatype Store = Store(order: seq<Key>, values: map<Key, Option<Text>>) {

    ghost predicate Valid() {
      && Distinct(order)
      && forall k :: k in values <==> k in order
    }

    /** Dictionary assignment: a new key goes last in iteration order, an existing key keeps its place. */
    function Put(k: Key, v: Option<Text>): (s: Store)
      ensures s.values == values[k := v]
      ensures k in values ==> s.order == order
      ensures k !in values ==> s.order == order + [k]
      ensures Valid() ==> s.Valid()
    {
      if k in values then Store(order, values[k := v])
      else
        assert Valid() ==> k !in order;
        Store(order + [k], values[k := v])
    }
  }

  /** The cache of a freshly bound service. */
  const EmptyStore: Store := Store([], map[])

  /**
   * One update step on the packet a read returned: nothing on length 0, the
   * "packet too short" error on length 1 or 2, otherwise the value stored under
   * the packet's key.
   */
  function Absorb(s: Store, p: Packet): (r: Result<Store>)
    ensures |p| == 0 ==> r == Success(s)
    ensures 0 < |p| < 3 ==> r == Failure(PacketTooShort)
    ensures |p| >= 3 ==> r.Success? && r.value.values == s.values[Key(p[0], p[1]) := Some(p[3..])]
    ensures |p| >= 3 ==> r.value.order == if Key(p[0], p[1]) in s.values then s.order else s.order + [Key(p[0], p[1])]
    ensures r.Success? ==> s.values.Keys <= r.value.values.Keys
    ensures r.Success? && s.Valid() ==> r.value.Valid()
  {
    if |p| == 0 then Success(s)
    else match Decode(p)
      case Failure(e) => Failure(e)
      case Success(u) => Success(s.Put(u.key, Some(u.value)))
  }

  /** Two packets that differ only in their flags byte have the same effect. */
  lemma AbsorbIgnoresFlags(s: Store, p: Packet, q: Packet)
    requires |p| == |q| >= 3
    requires forall i | 0 <= i < |p| && i != 2 :: p[i] == q[i]
    ensures Absorb(s, p) == Absorb(s, q)
  {
    assert p[3..] == q[3..];
  }

  /** A later packet for the same key overwrites the value an earlier one stored. */
  lemma AbsorbOverwrites(s: Store, p: Packet, q: Packet)
    requires |p| >= 3 && |q| >= 3 && p[..2] == q[..2]
    ensures Absorb(Absorb(s, p).value, q).value.values == s.values[Key(p[0], p[1]) := Some(q[3..])]
  {
    assert p[0] == p[..2][0] && p[1] == p[..2][1];
    assert q[0] == q[..2][0] && q[1] == q[..2][1];
  }
}
