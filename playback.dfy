/**
 * The playback-info attribute is the text `state,rate,elapsed`. The four state
 * flags compare the integer in its first comma-separated field with a fixed
 * constant; the other fields are selected by position.
 */
module Playback {
  import opened Base
  import opened EntityUpdate

  /** The byte of ','. */
  const Comma: byte := 44

  /** `s` cut at every `sep`, as Python's `split` does: always at least one (possibly empty) part. */
  function Split(s: Text, sep: byte): (parts: seq<Text>)
    ensures |parts| >= 1
    ensures forall i | 0 <= i < |parts| :: sep !in parts[i]
    decreases |s|
  {
    if s == [] then [[]]
    else
      var rest := Split(s[1..], sep);
      if s[0] == sep then [[]] + rest
      else
        var parts := [[s[0]] + rest[0]] + rest[1..];
        assert forall i | 1 <= i < |parts| :: parts[i] == rest[i];
        parts
  }

  /** The parts put back together with `sep` between neighbours. */
  function Join(parts: seq<Text>, sep: byte): Text
    decreases |parts|
  {
    if parts == [] then []
    else if |parts| == 1 then parts[0]
    else parts[0] + [sep] + Join(parts[1..], sep)
  }

  /** Splitting loses nothing: joining the parts gives the text back. */
  lemma {:induction false} JoinSplit(s: Text, sep: byte)
    ensures Join(Split(s, sep), sep) == s
    decreases |s|
  {
    if s != [] {
      var rest := Split(s[1..], sep);
      JoinSplit(s[1..], sep);
      if s[0] == sep {
        assert ([[]] + rest)[1..] == rest;
        assert s == [sep] + s[1..];
      } else {
        var parts := Split(s, sep);
        assert parts[1..] == rest[1..];
        if |rest| == 1 {
          assert s == [s[0]] + rest[0];
        } else {
          assert Join(rest, sep) == rest[0] + [sep] + Join(rest[1..], sep);
          assert s == [s[0]] + s[1..];
        }
      }
    }
  }

  /** A text without the separator is one part. */
  lemma {:induction false} SplitWithoutSeparator(p: Text, sep: byte)
    requires sep !in p
    ensures Split(p, sep) == [p]
    decreases |p|
  {
    if p != [] {
      SplitWithoutSeparator(p[1..], sep);
      assert [p[0]] + p[1..] == p;
    }
  }

  /** Splitting `p + sep + t` where `p` has no separator gives `p` and then the parts of `t`. */
  lemma {:induction false} SplitAfterPart(p: Text, sep: byte, t: Text)
    requires sep !in p
    ensures Split(p + [sep] + t, sep) == [p] + Split(t, sep)
    decreases |p|
  {
    if p == [] {
      assert p + [sep] + t == [sep] + t;
      assert ([sep] + t)[1..] == t;
    } else {
      var s := p + [sep] + t;
      assert s[1..] == p[1..] + [sep] + t;
      SplitAfterPart(p[1..], sep, t);
      assert [p[0]] + p[1..] == p;
    }
  }

  /** Splitting inverts joining, for parts without the separator. */
  lemma {:induction false} SplitJoin(parts: seq<Text>, sep: byte)
    requires |parts| >= 1
    requires forall i | 0 <= i < |parts| :: sep !in parts[i]
    ensures Split(Join(parts, sep), sep) == parts
    decreases |parts|
  {
    if |parts| == 1 {
      SplitWithoutSeparator(parts[0], sep);
    } else {
      SplitJoin(parts[1..], sep);
      SplitAfterPart(parts[0], sep, Join(parts[1..], sep));
      assert [parts[0]] + parts[1..] == parts;
    }
  }

  // ---- int() on ASCII text ----

  /** The white space `int()` skips around a number: space and tab through carriage return. */
  predicate IsSpace(b: byte) {
    b == 32 || 9 <= b <= 13
  }

  predicate AllSpace(w: Text) {
    forall i | 0 <= i < |w| :: IsSpace(w[i])
  }

  predicate IsDigit(b: byte) {
    48 <= b <= 57
  }

  predicate AllDigits(ds: Text) {
    forall i | 0 <= i < |ds| :: IsDigit(ds[i])
  }

  function StripLeading(s: Text): Text
    decreases |s|
  {
    if s != [] && IsSpace(s[0]) then StripLeading(s[1..]) else s
  }

  function StripTrailing(s: Text): Text
    decreases |s|
  {
    if s != [] && IsSpace(s[|s| - 1]) then StripTrailing(s[..|s| - 1]) else s
  }

  /** The decimal value of a string of digits, most significant first. */
  function DigitsValue(ds: Text): nat
    requires AllDigits(ds)
    decreases |ds|
  {
    if ds == [] then 0 else DigitsValue(ds[..|ds| - 1]) * 10 + (ds[|ds| - 1] - 48) as int
  }

  /** An optional `-` or `+` and then one or more decimal digits, read as a signed integer. */
  function ParseDecimal(t: Text): Result<int> {
    var signed := t != [] && (t[0] == 45 || t[0] == 43);
    var digits := if signed then t[1..] else t;
    if digits != [] && AllDigits(digits) then
      var v: int := DigitsValue(digits);
      Success(if t[0] == 45 then -v else v)
    else Failure(ValueError)
  }

  /**
   * Python's `int()` on the text: surrounding white space is ignored, then an
   * optional sign and one or more decimal digits; anything else is a ValueError.
   */
  function ParseInt(s: Text): (r: Result<int>)
    ensures r.Failure? ==> r.error == ValueError
  {
    ParseDecimal(StripTrailing(StripLeading(s)))
  }

  lemma {:induction false} StripLeadingOf(lead: Text, t: Text)
    requires AllSpace(lead) && (t == [] || !IsSpace(t[0]))
    ensures StripLeading(lead + t) == t
    decreases |lead|
  {
    if lead != [] {
      assert (lead + t)[1..] == lead[1..] + t;
      StripLeadingOf(lead[1..], t);
    }
  }

  lemma {:induction false} StripTrailingOf(t: Text, trail: Text)
    requires AllSpace(trail) && (t == [] || !IsSpace(t[|t| - 1]))
    ensures StripTrailing(t + trail) == t
    decreases |trail|
  {
    if trail != [] {
      var init := trail[..|trail| - 1];
      assert (t + trail)[..|t + trail| - 1] == t + init;
      StripTrailingOf(t, init);
    }
  }

  lemma {:induction false} StripLeadingSplit(s: Text) returns (lead: Text)
    ensures s == lead + StripLeading(s) && AllSpace(lead)
    decreases |s|
  {
    if s != [] && IsSpace(s[0]) {
      var rest := StripLeadingSplit(s[1..]);
      lead := [s[0]] + rest;
      assert s == [s[0]] + s[1..];
    } else {
      lead := [];
    }
  }

  lemma {:induction false} StripTrailingSplit(s: Text) returns (trail: Text)
    ensures s == StripTrailing(s) + trail && AllSpace(trail)
    decreases |s|
  {
    if s != [] && IsSpace(s[|s| - 1]) {
      var rest := StripTrailingSplit(s[..|s| - 1]);
      trail := rest + [s[|s| - 1]];
      assert s == s[..|s| - 1] + [s[|s| - 1]];
    } else {
      trail := [];
    }
  }

  /**
   * `int()` accepts white space, an optional `-` or `+`, one or more decimal
   * digits (leading zeros allowed) and white space, and returns the signed value
   * of the digits.
   */
  lemma ParseIntAccepts(lead: Text, sign: Text, ds: Text, trail: Text)
    requires AllSpace(lead) && AllSpace(trail)
    requires sign == [] || sign == [45] || sign == [43]
    requires ds != [] && AllDigits(ds)
    ensures ParseInt(lead + sign + ds + trail) == Success(if sign == [45] then -(DigitsValue(ds) as int) else DigitsValue(ds) as int)
  {
    var t := sign + ds;
    assert t[|t| - 1] == ds[|ds| - 1];
    StripTrailingOf(t, trail);
    assert lead + sign + ds + trail == lead + (t + trail);
    assert (t + trail)[0] == (if sign == [] then ds[0] else sign[0]);
    StripLeadingOf(lead, t + trail);
    assert StripTrailing(StripLeading(lead + sign + ds + trail)) == t;
    if sign != [] {
      assert t[0] == sign[0] && t[1..] == ds;
    } else {
      assert t == ds && IsDigit(t[0]);
    }
  }

  lemma ParseDecimalShape(t: Text) returns (sign: Text, ds: Text)
    requires ParseDecimal(t).Success?
    ensures t == sign + ds
    ensures sign == [] || sign == [45] || sign == [43]
    ensures ds != [] && AllDigits(ds)
    ensures ParseDecimal(t).value == if sign == [45] then -(DigitsValue(ds) as int) else DigitsValue(ds) as int
  {
    if t != [] && (t[0] == 45 || t[0] == 43) {
      sign, ds := t[..1], t[1..];
      assert t == sign + ds;
    } else {
      sign, ds := [], t;
    }
  }

  /** Conversely, every text `int()` accepts has that shape, and its value is the signed value of its digits. */
  lemma ParseIntShape(s: Text) returns (lead: Text, sign: Text, ds: Text, trail: Text)
    requires ParseInt(s).Success?
    ensures s == lead + sign + ds + trail
    ensures AllSpace(lead) && AllSpace(trail)
    ensures sign == [] || sign == [45] || sign == [43]
    ensures ds != [] && AllDigits(ds)
    ensures ParseInt(s).value == if sign == [45] then -(DigitsValue(ds) as int) else DigitsValue(ds) as int
  {
    lead := StripLeadingSplit(s);
    var u := StripLeading(s);
    trail := StripTrailingSplit(u);
    var t := StripTrailing(u);
    sign, ds := ParseDecimalShape(t);
    assert s == lead + sign + ds + trail by {
      assert s == lead + (t + trail);
      assert t == sign + ds;
    }
  }

  /** The decimal digits of `n`, without leading zeros. */
  function FormatNat(n: nat): (ds: Text)
    ensures ds != [] && AllDigits(ds) && DigitsValue(ds) == n
    decreases n
  {
    if n < 10 then [(48 + n) as byte]
    else
      var init := FormatNat(n / 10);
      var ds := init + [(48 + n % 10) as byte];
      assert ds[..|ds| - 1] == init;
      ds
  }

  /** The decimal text of `n`, as Python's `str(n)` writes it. */
  function FormatInt(n: int): Text {
    if n < 0 then [45 as byte] + FormatNat(-n) else FormatNat(n)
  }

  /** `int()` reads back every integer written in decimal. */
  lemma ParseFormat(n: int)
    ensures ParseInt(FormatInt(n)) == Success(n)
  {
    var t := FormatInt(n);
    assert StripLeading(t) == t;
    assert StripTrailing(t) == t;
    if n < 0 {
      assert t[1..] == FormatNat(-n);
    }
  }

  // ---- the state flags ----

  /** The playback states and the constants the four flags compare against. */
  datatype PlaybackState = Paused | Playing | Rewinding | FastForwarding {
    function Value(): int {
      match this
      case Paused => 0
      case Playing => 1
      case Rewinding => 2
      case FastForwarding => 3
    }
  }

  /** The integer in the first comma-separated field of a non-empty playback info. */
  function StateField(info: Text): Result<int> {
    ParseInt(Split(info, Comma)[0])
  }

  /**
   * One state flag: false when the playback info is absent or empty, otherwise
   * whether the integer in its first field is the state's constant; a first field
   * that is not an integer raises ValueError.
   */
  function StateFlag(info: Option<Text>, state: PlaybackState): (r: Result<bool>)
    ensures info == None || info == Some([]) ==> r == Success(false)
    ensures r == Success(true) <==> info.Some? && info.value != [] && StateField(info.value) == Success(state.Value())
    ensures r.Failure? <==> info.Some? && info.value != [] && StateField(info.value).Failure?
    ensures r.Failure? ==> r.error == ValueError
  {
    if info.None? || info.value == [] then Success(false)
    else match StateField(info.value)
      case Failure(e) => Failure(e)
      case Success(n) => Success(n == state.Value())
  }

  /** No two flags are true together. */
  lemma AtMostOneFlag(info: Option<Text>, a: PlaybackState, b: PlaybackState)
    requires a != b && StateFlag(info, a) == Success(true)
    ensures StateFlag(info, b) == Success(false)
  {
  }

  /** The state whose constant is `n`. */
  function StateOf(n: int): (st: PlaybackState)
    requires 0 <= n <= 3
    ensures st.Value() == n
  {
    if n == 0 then Paused else if n == 1 then Playing else if n == 2 then Rewinding else FastForwarding
  }

  /** When the first field holds a valid state 0..3, its flag is the only true one. */
  lemma ExactlyOneFlag(info: Text, n: int)
    requires info != [] && StateField(info) == Success(n) && 0 <= n <= 3
    ensures StateFlag(Some(info), StateOf(n)) == Success(true)
    ensures forall b: PlaybackState :: b != StateOf(n) ==> StateFlag(Some(info), b) == Success(false)
  {
  }

  /**
   * A numeric playback-info field, selected by position and returned as text:
   * absent when the info is absent or empty, an IndexError when the info has too
   * few fields.
   */
  function InfoField(info: Option<Text>, position: nat): (r: Result<Option<Text>>)
    ensures info == None || info == Some([]) ==> r == Success(None)
    ensures r == Failure(IndexError) <==> info.Some? && info.value != [] && position >= |Split(info.value, Comma)|
    ensures info.Some? && info.value != [] && position < |Split(info.value, Comma)| ==>
      r == Success(Some(Split(info.value, Comma)[position]))
    ensures r.Success? && r.value.Some? ==> Comma !in r.value.value
  {
    if info.None? || info.value == [] then Success(None)
    else
      var fields := Split(info.value, Comma);
      if position < |fields| then Success(Some(fields[position])) else Failure(IndexError)
  }

  /** The playback info `1,1.0,42.5`: playing, not the other three, and elapsed time `42.5`. */
  lemma PlayingExample()
    ensures var info: Text := [49, 44, 49, 46, 48, 44, 52, 50, 46, 53];
      && StateFlag(Some(info), Playing) == Success(true)
      && StateFlag(Some(info), Paused) == Success(false)
      && StateFlag(Some(info), Rewinding) == Success(false)
      && StateFlag(Some(info), FastForwarding) == Success(false)
      && InfoField(Some(info), 2) == Success(Some([52, 50, 46, 53]))
  {
    var parts: seq<Text> := [[49], [49, 46, 48], [52, 50, 46, 53]];
    var info: Text := [49, 44, 49, 46, 48, 44, 52, 50, 46, 53];
    assert Join(parts, Comma) == info by {
      assert parts[1..][1..] == [[52, 50, 46, 53]];
    }
    SplitJoin(parts, Comma);
    ParseFormat(1);
    assert FormatInt(1) == [49];
  }
}
