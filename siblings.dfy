/**
 * The attribute-id list of the request written on a cache miss: the requested id,
 * then every attribute id already cached for the same entity, in cache order, each
 * id once.
 */
module Siblings {
  import opened Base
  import opened EntityUpdate

  /** The attribute ids of the keys in `order` that belong to `entity`, in order. */
  function AttrsOf(entity: byte, order: seq<Key>): seq<byte>
    decreases |order|
  {
    if order == [] then []
    else
      var last := order[|order| - 1];
      AttrsOf(entity, order[..|order| - 1]) + (if last.entity == entity then [last.attribute] else [])
  }

  /** `s` with every element after its first occurrence dropped. */
  function FirstOccurrences(s: seq<byte>): seq<byte>
    decreases |s|
  {
    if s == [] then []
    else
      var init := s[..|s| - 1];
      if s[|s| - 1] in init then FirstOccurrences(init) else FirstOccurrences(init) + [s[|s| - 1]]
  }

  lemma {:induction false} AttrsOfMembers(entity: byte, order: seq<Key>, a: byte)
    ensures a in AttrsOf(entity, order) <==> Key(entity, a) in order
    decreases |order|
  {
    if order != [] {
      var init := order[..|order| - 1];
      AttrsOfMembers(entity, init, a);
      assert order == init + [order[|order| - 1]];
    }
  }

  lemma {:induction false} AttrsOfDistinct(entity: byte, order: seq<Key>)
    requires Distinct(order)
    ensures Distinct(AttrsOf(entity, order))
    decreases |order|
  {
    if order != [] {
      var init, last := order[..|order| - 1], order[|order| - 1];
      assert Distinct(init);
      AttrsOfDistinct(entity, init);
      if last.entity == entity {
        AttrsOfMembers(entity, init, last.attribute);
        assert order == init + [last];
        DistinctSnoc(AttrsOf(entity, init), last.attribute);
      }
    }
  }

  lemma {:induction false} FirstOccurrencesMembers(s: seq<byte>, x: byte)
    ensures x in FirstOccurrences(s) <==> x in s
    decreases |s|
  {
    if s != [] {
      var init := s[..|s| - 1];
      FirstOccurrencesMembers(init, x);
      assert s == init + [s[|s| - 1]];
    }
  }

  lemma {:induction false} FirstOccurrencesDistinct(s: seq<byte>)
    ensures Distinct(FirstOccurrences(s))
    decreases |s|
  {
    if s != [] {
      var init, last := s[..|s| - 1], s[|s| - 1];
      FirstOccurrencesDistinct(init);
      if last !in init {
        FirstOccurrencesMembers(init, last);
        DistinctSnoc(FirstOccurrences(init), last);
      }
    }
  }

  lemma {:induction false} FirstOccurrencesOfDistinct(s: seq<byte>)
    requires Distinct(s)
    ensures FirstOccurrences(s) == s
    decreases |s|
  {
    if s != [] {
      var init := s[..|s| - 1];
      assert Distinct(init);
      FirstOccurrencesOfDistinct(init);
      assert s == init + [s[|s| - 1]];
    }
  }

  lemma {:induction false} FirstOccurrencesHead(s: seq<byte>)
    requires s != []
    ensures FirstOccurrences(s) != [] && FirstOccurrences(s)[0] == s[0]
    decreases |s|
  {
    if |s| > 1 {
      var init := s[..|s| - 1];
      FirstOccurrencesHead(init);
    }
  }

  /**
   * For a key that is not cached, no id repeats: the sibling list is the requested
   * id followed by the entity's cached attribute ids.
   */
  lemma SiblingsOfUncachedKey(order: seq<Key>, entity: byte, attribute: byte)
    requires Distinct(order) && Key(entity, attribute) !in order
    ensures FirstOccurrences([attribute] + AttrsOf(entity, order)) == [attribute] + AttrsOf(entity, order)
  {
    var attrs := AttrsOf(entity, order);
    AttrsOfDistinct(entity, order);
    AttrsOfMembers(entity, order, attribute);
    assert Distinct([attribute] + attrs) by {
      forall i, j | 0 <= i < j < |[attribute] + attrs|
        ensures ([attribute] + attrs)[i] != ([attribute] + attrs)[j]
      {
        if i == 0 {
          assert ([attribute] + attrs)[j] == attrs[j - 1];
        }
      }
    }
    FirstOccurrencesOfDistinct([attribute] + attrs);
  }

  /** The loop that builds the sibling list, one cached key at a time. */
  method SiblingIds(entity: byte, attribute: byte, order: seq<Key>) returns (ids: seq<byte>)
    ensures ids == FirstOccurrences([attribute] + AttrsOf(entity, order))
    ensures ids != [] && ids[0] == attribute && Distinct(ids)
    ensures forall a :: a in ids <==> a == attribute || Key(entity, a) in order
  {
    ids := [attribute];
    assert FirstOccurrences([attribute]) == [attribute];
    var i := 0;
    while i < |order|
      invariant i <= |order|
      invariant ids == FirstOccurrences([attribute] + AttrsOf(entity, order[..i]))
    {
      var k := order[i];
      ghost var before := [attribute] + AttrsOf(entity, order[..i]);
      assert order[..i + 1][..i] == order[..i];
      FirstOccurrencesMembers(before, k.attribute);
      if k.entity == entity && k.attribute !in ids {
        ids := ids + [k.attribute];
      }
      if k.entity == entity {
        assert (before + [k.attribute])[..|before|] == before;
        assert [attribute] + AttrsOf(entity, order[..i + 1]) == before + [k.attribute];
      } else {
        assert [attribute] + AttrsOf(entity, order[..i + 1]) == before;
      }
      i := i + 1;
    }
    assert order[..i] == order;
    ghost var all := [attribute] + AttrsOf(entity, order);
    FirstOccurrencesHead(all);
    FirstOccurrencesDistinct(all);
    forall a ensures a in ids <==> a == attribute || Key(entity, a) in order {
      FirstOccurrencesMembers(all, a);
      AttrsOfMembers(entity, order, a);
    }
  }
}
