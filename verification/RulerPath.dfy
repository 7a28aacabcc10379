/**
 Path segments for the ruler proxy: a name percent-encoded, or a placeholder with the name in the query
 string when encoding would not survive path normalization.
 */
module RulerPath {
  import opened Wrappers

  type Byte = b: int | 0 <= b < 256

  type Bytes = seq<Byte>

  function Ascii(s: string): Bytes
    requires forall i | 0 <= i < |s| :: s[i] < 128 as char
  {
    seq(|s|, i requires 0 <= i < |s| => s[i] as int)
  }

  const SLASH: Byte := 47
  const BACKSLASH: Byte := 92
  const DOT: Byte := 46
  const PERCENT: Byte := 37

  datatype Kind = Namespace | Group

  /** QUERY_ and the kind in upper case. */
  function Tag(kind: Kind): Bytes {
    match kind
    case Namespace => Ascii("QUERY_NAMESPACE")
    case Group => Ascii("QUERY_GROUP")
  }

  // ----- url.PathEscape

  predicate IsAlnum(b: Byte) {
    48 <= b <= 57 || 65 <= b <= 90 || 97 <= b <= 122
  }

  /** The unreserved characters, and $ & + : = @, which a path segment may hold. */
  predicate Unescaped(b: Byte) {
    IsAlnum(b) || b in {45, 95, 46, 126, 36, 38, 43, 58, 61, 64}
  }

  function HexDigit(d: int): (b: Byte)
    requires 0 <= d < 16
    ensures IsAlnum(b)
  {
    if d < 10 then 48 + d else 55 + d
  }

  function EscapeByte(b: Byte): Bytes {
    if Unescaped(b) then [b] else [PERCENT, HexDigit(b / 16), HexDigit(b % 16)]
  }

  function PathEscape(value: Bytes): Bytes {
    if value == [] then [] else EscapeByte(value[0]) + PathEscape(value[1..])
  }

  // ----- percent-decoding, section 2.1 of RFC 3986

  function HexValue(b: Byte): (d: Option<int>)
    ensures d.Some? ==> 0 <= d.value < 16
  {
    if 48 <= b <= 57 then Some(b - 48)
    else if 65 <= b <= 70 then Some(b - 55)
    else if 97 <= b <= 102 then Some(b - 87)
    else None
  }

  function Cons(b: Byte, rest: Option<Bytes>): Option<Bytes> {
    match rest case None => None case Some(bytes) => Some([b] + bytes)
  }

  /** None if a percent sign is not followed by two hexadecimal digits. */
  function PercentDecode(s: Bytes): Option<Bytes>
    decreases |s|
  {
    if s == [] then Some([])
    else if s[0] != PERCENT then Cons(s[0], PercentDecode(s[1..]))
    else if |s| >= 3 && HexValue(s[1]).Some? && HexValue(s[2]).Some?
    then Cons(16 * HexValue(s[1]).value + HexValue(s[2]).value, PercentDecode(s[3..]))
    else None
  }

  lemma {:induction false} DecodeEscaped(value: Bytes)
    ensures PercentDecode(PathEscape(value)) == Some(value)
  {
    if value != [] {
      var b, rest := value[0], PathEscape(value[1..]);
      DecodeEscaped(value[1..]);
      DecodeByte(b, rest);
      assert value == [b] + value[1..];
    }
  }

  lemma DecodeByte(b: Byte, rest: Bytes)
    ensures PercentDecode(EscapeByte(b) + rest) == Cons(b, PercentDecode(rest))
  {
    var s := EscapeByte(b) + rest;
    if Unescaped(b) {
      assert s[1..] == rest;
    } else {
      assert s[3..] == rest;
    }
  }

  // ----- rulerPathSegment

  /** Names that a path cannot carry: separators, dot segments, and the placeholder itself. */
  predicate Placeheld(value: Bytes, kind: Kind) {
    SLASH in value || BACKSLASH in value || value == [DOT] || value == [DOT, DOT] || value == Tag(kind)
  }

  function Segment(value: Bytes, kind: Kind): Bytes {
    if Placeheld(value, kind) then Tag(kind) else PathEscape(value)
  }

  function WithPlaceholder(params: map<Kind, Bytes>, value: Bytes, kind: Kind): map<Kind, Bytes> {
    if Placeheld(value, kind) then params[kind := value] else params
  }

  /** url.Values, as far as segments use it. */
  class Query {
    var params: map<Kind, Bytes>

    constructor ()
      ensures params == map[]
    {
      params := map[];
    }

    method Set(kind: Kind, value: Bytes)
      modifies this
      ensures params == old(params)[kind := value]
    {
      params := params[kind := value];
    }
  }

  method Escape(value: Bytes) returns (escaped: Bytes)
    ensures escaped == PathEscape(value)
  {
    escaped := [];
    var i := 0;
    while i < |value|
      invariant i <= |value| && PathEscape(value) == escaped + PathEscape(value[i..])
    {
      assert value[i..][1..] == value[i + 1..];
      escaped := escaped + EscapeByte(value[i]);
      i := i + 1;
    }
  }

  method RulerPathSegment(value: Bytes, kind: Kind, query: Query) returns (segment: Bytes)
    modifies query
    ensures segment == Segment(value, kind)
    ensures query.params == WithPlaceholder(old(query.params), value, kind)
  {
    var tag := Tag(kind);
    if SLASH in value || BACKSLASH in value || value == [DOT] || value == [DOT, DOT] || value == tag {
      query.Set(kind, value);
      return tag;
    }
    segment := Escape(value);
  }

  /** What the proxy makes of a segment: the parameter that the placeholder names, or the decoded segment. */
  function ReadSegment(segment: Bytes, kind: Kind, params: map<Kind, Bytes>): Option<Bytes> {
    if segment == Tag(kind) then if kind in params then Some(params[kind]) else None
    else PercentDecode(segment)
  }

  lemma {:induction false} UnescapedStays(value: Bytes)
    requires forall i | 0 <= i < |value| :: Unescaped(value[i])
    ensures PathEscape(value) == value
  {
    if value != [] {
      UnescapedStays(value[1..]);
      assert value == [value[0]] + value[1..];
    }
  }

  lemma TagIsUnescaped(kind: Kind)
    ensures forall i | 0 <= i < |Tag(kind)| :: Unescaped(Tag(kind)[i])
  {
  }

  /** Every name is read back from its segment, and the parameters already there survive under other kinds. */
  lemma SegmentReadsBack(value: Bytes, kind: Kind, params: map<Kind, Bytes>)
    ensures ReadSegment(Segment(value, kind), kind, WithPlaceholder(params, value, kind)) == Some(value)
    ensures forall other | other != kind && other in params ::
              other in WithPlaceholder(params, value, kind) && WithPlaceholder(params, value, kind)[other] == params[other]
  {
    hide PathEscape, PercentDecode, Tag;
    DecodeEscaped(value);
    if !Placeheld(value, kind) && PathEscape(value) == Tag(kind) {
      TagIsUnescaped(kind);
      UnescapedStays(Tag(kind));
      DecodeEscaped(Tag(kind));
    }
  }

  /** The two segments of a rule group path share one query string, and both names are read back. */
  lemma GroupPathReadsBack(namespace: Bytes, group: Bytes, params: map<Kind, Bytes>)
    ensures var last := WithPlaceholder(WithPlaceholder(params, namespace, Namespace), group, Group);
            && ReadSegment(Segment(namespace, Namespace), Namespace, last) == Some(namespace)
            && ReadSegment(Segment(group, Group), Group, last) == Some(group)
  {
    hide Segment, PercentDecode, Placeheld, Tag;
    var first := WithPlaceholder(params, namespace, Namespace);
    SegmentReadsBack(namespace, Namespace, params);
    SegmentReadsBack(group, Group, first);
  }

  predicate PathSafe(b: Byte) {
    Unescaped(b) || b == PERCENT
  }

  lemma {:induction false} EscapedIsSafe(value: Bytes)
    ensures forall b | b in PathEscape(value) :: PathSafe(b)
    ensures |PathEscape(value)| >= |value|
  {
    if value != [] {
      EscapedIsSafe(value[1..]);
    }
  }

  /**
   A non-empty name gives a non-empty segment without separators of its own, which is no dot segment
   (section 5.2.4 of RFC 3986).
   */
  lemma SegmentSurvivesNormalization(value: Bytes, kind: Kind)
    requires value != []
    ensures var segment := Segment(value, kind);
            && segment != [] && segment != [DOT] && segment != [DOT, DOT]
            && SLASH !in segment && BACKSLASH !in segment
            && forall b | b in segment :: PathSafe(b)
  {
    hide PathEscape;
    if Placeheld(value, kind) {
      TagIsUnescaped(kind);
    } else {
      EscapedIsSafe(value);
      if PathEscape(value) == [DOT] || PathEscape(value) == [DOT, DOT] {
        DotsStay();
        DecodeEscaped(value);
        DecodeEscaped([DOT]);
        DecodeEscaped([DOT, DOT]);
      }
    }
  }

  lemma DotsStay()
    ensures PathEscape([DOT]) == [DOT] && PathEscape([DOT, DOT]) == [DOT, DOT]
  {
    UnescapedStays([DOT]);
    UnescapedStays([DOT, DOT]);
  }

  /** Distinct names of one kind never share a segment and a parameter. */
  lemma SegmentsAreDistinct(a: Bytes, b: Bytes, kind: Kind, params: map<Kind, Bytes>)
    requires Segment(a, kind) == Segment(b, kind)
    requires WithPlaceholder(params, a, kind) == WithPlaceholder(params, b, kind)
    ensures a == b
  {
    hide Segment, WithPlaceholder;
    SegmentReadsBack(a, kind, params);
    SegmentReadsBack(b, kind, params);
  }

  /** The name a segment decodes to can stand in a path even after the decoding. */
  predicate CarriedByPath(value: Bytes) {
    SLASH !in value && BACKSLASH !in value && value != [DOT] && value != [DOT, DOT]
  }

  /**
   Whoever decodes a segment before taking the path apart finds no separator and no dot segment in it either; and the
   placeholder stands in for no other names than those for which it would, and the placeholder itself.
   */
  lemma DecodedSegmentIsSafe(value: Bytes, kind: Kind, params: map<Kind, Bytes>)
    ensures PercentDecode(Segment(value, kind)).Some? && CarriedByPath(PercentDecode(Segment(value, kind)).value)
    ensures CarriedByPath(value) && value != Tag(kind) ==>
              PercentDecode(Segment(value, kind)) == Some(value) && WithPlaceholder(params, value, kind) == params
    ensures !(CarriedByPath(value) && value != Tag(kind)) ==>
              Segment(value, kind) == Tag(kind) && WithPlaceholder(params, value, kind) == params[kind := value]
  {
    hide PathEscape, PercentDecode;
    DecodeEscaped(value);
    TagIsUnescaped(kind);
    UnescapedStays(Tag(kind));
    DecodeEscaped(Tag(kind));
  }

  /** The bytes that stay as they are are those that section 3.3 of RFC 3986 allows in a segment, less ! ' ( ) * , and ; */
  lemma UnescapedAre(b: Byte)
    ensures EscapeByte(b) == [b] <==>
            48 <= b <= 57 || 65 <= b <= 90 || 97 <= b <= 122 || exists i :: 0 <= i < 10 && b == "-._~$&+:=@"[i] as int
    ensures EscapeByte(b) != [b] ==> |EscapeByte(b)| == 3 && EscapeByte(b)[0] == PERCENT
  {
    var kept := "-._~$&+:=@";
    assert kept[0] as int == 45 && kept[1] as int == 46 && kept[2] as int == 95 && kept[3] as int == 126 && kept[4] as int == 36
           && kept[5] as int == 38 && kept[6] as int == 43 && kept[7] as int == 58 && kept[8] as int == 61 && kept[9] as int == 64;
  }
}
