/**
  Canonical NodeId segments and paths (src/node_id.cpp), their decoder and splitter
  (src/publication_selector.cpp), and the laws that make printed paths safe keys.
  The encoding is the percent-encoding of RFC 3986, section 2.1, over the unreserved set of
  section 2.3, with uppercase digits only.
 */
module NodeId {
  import opened Wrappers
  import opened Ordering

  predicate IsUnreserved(c: Byte)
  {
    'a' <= c <= 'z' || 'A' <= c <= 'Z' || '0' <= c <= '9' || c == '-' || c == '.' || c == '_' || c == '~'
  }

  predicate IsUpperHexDigit(c: Byte)
  {
    '0' <= c <= '9' || 'A' <= c <= 'F'
  }

  function HexValue(c: Byte): (value: nat)
    requires IsUpperHexDigit(c)
    ensures value < 16
  {
    if '0' <= c <= '9' then c as int - '0' as int else c as int - 'A' as int + 10
  }

  /** The digit at position n of "0123456789ABCDEF". */
  function HexDigit(n: nat): (c: Byte)
    requires n < 16
    ensures IsUpperHexDigit(c) && HexValue(c) == n
  {
    if n < 10 then ('0' as int + n) as char else ('A' as int + (n - 10)) as char
  }

  function EscapedByte(c: Byte): Bytes
  {
    if IsUnreserved(c) then [c] else ['%', HexDigit(c as int / 16), HexDigit(c as int % 16)]
  }

  function EscapedBytes(s: Bytes): Bytes
  {
    if s == [] then [] else EscapedByte(s[0]) + EscapedBytes(s[1..])
  }

  /** The canonical segment of a name; the empty name shares its segment with the name "\0". */
  function Escaped(s: Bytes): Bytes
  {
    if s == [] then "%00" else EscapedBytes(s)
  }

  const HEX_DIGITS: Bytes := "0123456789ABCDEF"

  /**
    The ASCII codes of "0".."9", "A".."Z", "a".."z" and of "-", ".", "_" and "~" stay as they are;
    any other byte becomes "%" and its two digits, the high one first.
   */
  lemma EscapedOneByte(c: Byte)
    ensures var code := c as int;
            var kept := 48 <= code <= 57 || 65 <= code <= 90 || 97 <= code <= 122 || code in {45, 46, 95, 126};
            Escaped([c]) == if kept then [c] else ['%', HEX_DIGITS[code / 16], HEX_DIGITS[code % 16]]
  {
    assert [c][1..] == [] && EscapedBytes([c]) == EscapedByte(c) + [];
    DigitsInOrder(c as int / 16);
    DigitsInOrder(c as int % 16);
  }

  lemma DigitsInOrder(n: nat)
    requires n < 16
    ensures HexDigit(n) == HEX_DIGITS[n]
  {
  }

  lemma {:induction false} EscapedBytesConcat(a: Bytes, b: Bytes)
    ensures EscapedBytes(a + b) == EscapedBytes(a) + EscapedBytes(b)
  {
    if a == [] {
      assert a + b == b;
    } else {
      EscapedBytesConcat(a[1..], b);
      assert (a + b)[0] == a[0] && (a + b)[1..] == a[1..] + b;
      Associative(EscapedByte(a[0]), EscapedBytes(a[1..]), EscapedBytes(b));
    }
  }

  method EscapeNodeIdSegment(segment: Bytes) returns (escaped: Bytes)
    ensures escaped == Escaped(segment)
  {
    if segment == [] {
      return "%00";
    }
    escaped := [];
    for i := 0 to |segment|
      invariant escaped == EscapedBytes(segment[..i])
    {
      var c := segment[i];
      TakeMore(segment, i);
      EscapedBytesConcat(segment[..i], [c]);
      assert EscapedBytes([c]) == EscapedByte(c) + [];
      if IsUnreserved(c) {
        escaped := escaped + [c];
      } else {
        escaped := escaped + ['%'];
        escaped := escaped + [HexDigit(c as int / 16)];
        escaped := escaped + [HexDigit(c as int % 16)];
      }
    }
    TakeAll(segment);
  }

  // ---------------------------------------------------------------- decoding

  /** The byte that a two-digit escape stands for. */
  function HexByte(high: Byte, low: Byte): (c: Byte)
    requires IsUpperHexDigit(high) && IsUpperHexDigit(low)
  {
    (HexValue(high) * 16 + HexValue(low)) as char
  }

  /** Undoes every escape, without asking whether the text was canonical. */
  function Unescaped(s: Bytes): Option<Bytes>
  {
    if s == [] then Some([])
    else if s[0] != '%' then Prepend([s[0]], Unescaped(s[1..]))
    else if |s| < 3 || !IsUpperHexDigit(s[1]) || !IsUpperHexDigit(s[2]) then None
    else Prepend([HexByte(s[1], s[2])], Unescaped(s[3..]))
  }

  function Prepend(prefix: Bytes, rest: Option<Bytes>): Option<Bytes>
  {
    if rest.None? then None else Some(prefix + rest.value)
  }

  lemma PrependPrepend(a: Bytes, b: Bytes, rest: Option<Bytes>)
    ensures Prepend(a, Prepend(b, rest)) == Prepend(a + b, rest)
    ensures Prepend([], rest) == rest
  {
    if rest.Some? {
      assert a + (b + rest.value) == a + b + rest.value;
      assert [] + rest.value == rest.value;
    }
  }

  lemma {:induction false} UnescapedEscapes(s: Bytes)
    ensures Unescaped(EscapedBytes(s)) == Some(s)
  {
    if s != [] {
      var c, rest := s[0], EscapedBytes(s[1..]);
      UnescapedEscapes(s[1..]);
      var e := EscapedBytes(s);
      assert s == [c] + s[1..];
      if IsUnreserved(c) {
        assert e == [c] + rest && e[1..] == rest;
      } else {
        assert e == ['%', HexDigit(c as int / 16), HexDigit(c as int % 16)] + rest;
        assert e[3..] == rest;
        assert HexByte(e[1], e[2]) == c;
      }
    }
  }

  /** The name a canonical segment stands for: none unless escaping it gives the segment back. */
  function Decoded(segment: Bytes): Option<Bytes>
  {
    var d := Unescaped(segment);
    if d.None? || Escaped(d.value) != segment then None else d
  }

  /** Decoding inverts escaping on nonempty names, and accepts nothing but escaped names. */
  lemma DecodedIsExact(segment: Bytes, name: Bytes)
    ensures Decoded(segment) == Some(name) <==> name != [] && Escaped(name) == segment
    ensures Decoded(segment) == None <==> forall d: Bytes :: Escaped(d) != segment
  {
    UnescapedEscapes(name);
    EmptyAndNul();
    if exists d: Bytes :: Escaped(d) == segment {
      var d: Bytes :| Escaped(d) == segment;
      UnescapedEscapes(d);
      if d == [] {
        UnescapedEscapes(['\0']);
        assert Decoded(segment) == Some(['\0']);
      } else {
        assert Decoded(segment) == Some(d);
      }
    }
    UnescapedEscapes(['\0']);
    assert Escaped(['\0']) == "%00" && Unescaped("%00") == Some(['\0']);
  }

  lemma EmptyAndNul()
    ensures Escaped([]) == Escaped(['\0']) == "%00"
  {
    assert EscapedBytes(['\0']) == EscapedByte('\0') + EscapedBytes([]);
  }

  /** Escaping is injective except that the empty name and "\0" share "%00". */
  lemma EscapedCollision(a: Bytes, b: Bytes)
    ensures Escaped(a) == Escaped(b) <==> a == b || {a, b} == {[], ['\0']}
  {
    EmptyAndNul();
    UnescapedEscapes(a);
    UnescapedEscapes(b);
    UnescapedEscapes(['\0']);
    assert a != b && {a, b} == {[], ['\0']} ==> (a == [] && b == ['\0']) || (a == ['\0'] && b == []) by {
      if {a, b} == {[], ['\0']} {
        assert a in {a, b} && b in {a, b};
        assert [] in {a, b} && ['\0'] in {a, b};
      }
    }
  }

  method DecodeCanonicalSegment(segment: Bytes) returns (r: Option<Bytes>)
    ensures r == Decoded(segment)
  {
    var decoded: Bytes := [];
    var index := 0;
    assert segment[0..] == segment;
    PrependPrepend([], [], Unescaped(segment));
    while index < |segment|
      invariant 0 <= index <= |segment|
      invariant Unescaped(segment) == Prepend(decoded, Unescaped(segment[index..]))
    {
      var rest := segment[index..];
      if segment[index] != '%' {
        assert rest[1..] == segment[index + 1..];
        PrependPrepend(decoded, [segment[index]], Unescaped(rest[1..]));
        decoded := decoded + [segment[index]];
        index := index + 1;
        continue;
      }
      if index + 2 >= |segment| || !IsUpperHexDigit(segment[index + 1])
         || !IsUpperHexDigit(segment[index + 2]) {
        assert Unescaped(rest) == None;
        return None;
      }
      assert rest[3..] == segment[index + 3..];
      PrependPrepend(decoded, [HexByte(segment[index + 1], segment[index + 2])], Unescaped(rest[3..]));
      decoded := decoded + [HexByte(segment[index + 1], segment[index + 2])];
      index := index + 3;
    }
    assert decoded + [] == decoded;
    assert Unescaped(segment) == Some(decoded);
    var canonical := EscapeNodeIdSegment(decoded);
    if canonical != segment {
      return None;
    }
    return Some(decoded);
  }

  // ------------------------------------------------------- splitting and joining

  predicate SlashFree(s: Bytes)
  {
    '/' !in s
  }

  ghost predicate AllSlashFree(segments: seq<Bytes>)
  {
    forall i :: 0 <= i < |segments| ==> SlashFree(segments[i])
  }

  function Join(segments: seq<Bytes>): Bytes
  {
    if segments == [] then []
    else if |segments| == 1 then segments[0]
    else segments[0] + "/" + Join(segments[1..])
  }

  function Split(path: Bytes): (r: seq<Bytes>)
    ensures r != []
  {
    if path == [] then [[]]
    else
      var rest := Split(path[1..]);
      if path[0] == '/' then [[]] + rest else [[path[0]] + rest[0]] + rest[1..]
  }

  /** Joining undoes splitting, whatever the text. */
  lemma {:induction false} JoinSplit(path: Bytes)
    ensures Join(Split(path)) == path
    ensures AllSlashFree(Split(path))
  {
    if path != [] {
      JoinSplit(path[1..]);
      var rest := Split(path[1..]);
      var r := Split(path);
      if path[0] == '/' {
        assert r[1..] == rest;
        assert path == [] + "/" + path[1..];
      } else {
        assert r[1..] == rest[1..];
        assert path == [path[0]] + path[1..];
      }
    }
  }

  lemma {:induction false} SplitSlashFree(s: Bytes)
    requires SlashFree(s)
    ensures Split(s) == [s]
  {
    if s != [] {
      SplitSlashFree(s[1..]);
      assert [s[0]] + s[1..] == s;
    }
  }

  lemma {:induction false} SplitConcat(a: Bytes, b: Bytes)
    requires SlashFree(a)
    ensures Split(a + "/" + b) == [a] + Split(b)
  {
    var p := a + "/" + b;
    if a == [] {
      assert p[0] == '/' && p[1..] == b;
    } else {
      SplitConcat(a[1..], b);
      assert p[0] == a[0] && p[1..] == a[1..] + "/" + b;
      assert [a[0]] + a[1..] == a;
    }
  }

  /** Splitting undoes joining for segments without a slash, so joining is injective on them. */
  lemma {:induction false} SplitJoin(segments: seq<Bytes>)
    requires segments != [] && AllSlashFree(segments)
    ensures Split(Join(segments)) == segments
  {
    if |segments| == 1 {
      SplitSlashFree(segments[0]);
    } else {
      SplitJoin(segments[1..]);
      SplitConcat(segments[0], Join(segments[1..]));
      assert segments == [segments[0]] + segments[1..];
    }
  }

  lemma {:induction false} JoinConcat(a: seq<Bytes>, b: seq<Bytes>)
    requires a != [] && b != []
    ensures Join(a + b) == Join(a) + "/" + Join(b)
  {
    if |a| == 1 {
      assert (a + b)[1..] == b;
    } else {
      JoinConcat(a[1..], b);
      assert (a + b)[1..] == a[1..] + b;
    }
  }

  /** std::string_view::find('/', begin), with the length of the text for npos. */
  method FindSlash(text: Bytes, begin: nat) returns (end: nat)
    requires begin <= |text|
    ensures begin <= end <= |text|
    ensures SlashFree(text[begin..end])
    ensures end < |text| ==> text[end] == '/'
  {
    end := begin;
    while end < |text| && text[end] != '/'
      invariant begin <= end <= |text|
      invariant SlashFree(text[begin..end])
    {
      assert text[begin..end + 1] == text[begin..end] + [text[end]];
      end := end + 1;
    }
  }

  lemma SplitPiece(path: Bytes, begin: nat, end: nat)
    requires begin <= end <= |path| && SlashFree(path[begin..end])
    requires end < |path| ==> path[end] == '/'
    ensures end == |path| ==> Split(path[begin..]) == [path[begin..end]]
    ensures end < |path| ==> Split(path[begin..]) == [path[begin..end]] + Split(path[end + 1..])
  {
    var piece := path[begin..end];
    if end == |path| {
      assert piece == path[begin..];
      SplitSlashFree(piece);
    } else {
      SplitConcat(piece, path[end + 1..]);
      assert path[begin..] == piece + "/" + path[end + 1..];
    }
  }

  method SplitPath(path: Bytes) returns (segments: seq<Bytes>)
    ensures segments == Split(path)
  {
    segments := [];
    var begin := 0;
    while true
      invariant 0 <= begin <= |path|
      invariant Split(path) == segments + Split(path[begin..])
      decreases |path| - begin
    {
      hide Split;
      var end := FindSlash(path, begin);
      SplitPiece(path, begin, end);
      ghost var rest := Split(if end == |path| then [] else path[end + 1..]);
      Associative(segments, [path[begin..end]], rest);
      segments := segments + [path[begin..end]];
      if end == |path| {
        return;
      }
      begin := end + 1;
    }
  }

  // ------------------------------------------------------------- printed paths

  function EscapedAll(names: seq<Bytes>): (r: seq<Bytes>)
    ensures |r| == |names|
    ensures forall i :: 0 <= i < |names| ==> r[i] == Escaped(names[i])
  {
    seq(|names|, i requires 0 <= i < |names| => Escaped(names[i]))
  }

  /** The NodeId string of a list of names. */
  function NodePath(names: seq<Bytes>): Bytes
  {
    Join(["rtt"] + EscapedAll(names))
  }

  lemma NodePathGrows(names: seq<Bytes>, i: nat)
    requires i < |names|
    ensures NodePath(names[..i + 1]) == NodePath(names[..i]) + "/" + Escaped(names[i])
  {
    var head := ["rtt"] + EscapedAll(names[..i]);
    JoinConcat(head, [Escaped(names[i])]);
    assert ["rtt"] + EscapedAll(names[..i + 1]) == head + [Escaped(names[i])];
  }

  method MakeNodePath(segments: seq<Bytes>) returns (path: Bytes)
    ensures path == NodePath(segments)
  {
    path := "rtt";
    for i := 0 to |segments|
      invariant path == NodePath(segments[..i])
    {
      NodePathGrows(segments, i);
      path := path + "/";
      var escaped := EscapeNodeIdSegment(segments[i]);
      path := path + escaped;
    }
    TakeAll(segments);
  }

  /** Canonical segments hold unreserved bytes and escapes only: no slash and no wildcard. */
  lemma {:induction false} EscapedBytesAlphabet(s: Bytes)
    ensures forall c :: c in EscapedBytes(s) ==> IsUnreserved(c) || c == '%'
    ensures |s| <= |EscapedBytes(s)|
  {
    if s != [] {
      EscapedBytesAlphabet(s[1..]);
      assert EscapedBytes(s) == EscapedByte(s[0]) + EscapedBytes(s[1..]);
      assert forall c :: c in EscapedByte(s[0]) ==> IsUnreserved(c) || c == '%';
    }
  }

  lemma EscapedAlphabet(s: Bytes)
    ensures Escaped(s) != []
    ensures forall c :: c in Escaped(s) ==> IsUnreserved(c) || c == '%'
    ensures SlashFree(Escaped(s)) && '*' !in Escaped(s)
  {
    EscapedBytesAlphabet(s);
  }

  /** A printed path splits back into its root and its escaped segments. */
  lemma NodePathSplits(names: seq<Bytes>)
    ensures Split(NodePath(names)) == ["rtt"] + EscapedAll(names)
  {
    forall i | 0 <= i < |names| ensures SlashFree(Escaped(names[i])) {
      EscapedAlphabet(names[i]);
    }
    SplitJoin(["rtt"] + EscapedAll(names));
  }

  /** Two lists of names share a path exactly when they agree up to "" against "\0". */
  lemma NodePathInjective(a: seq<Bytes>, b: seq<Bytes>)
    ensures NodePath(a) == NodePath(b) <==>
            |a| == |b| && forall i :: 0 <= i < |a| ==> a[i] == b[i] || {a[i], b[i]} == {[], ['\0']}
  {
    NodePathSplits(a);
    NodePathSplits(b);
    var ea, eb := EscapedAll(a), EscapedAll(b);
    if NodePath(a) == NodePath(b) {
      assert ["rtt"] + ea == ["rtt"] + eb;
      assert ea == (["rtt"] + ea)[1..] && eb == (["rtt"] + eb)[1..];
      forall i | 0 <= i < |a| ensures a[i] == b[i] || {a[i], b[i]} == {[], ['\0']} {
        assert ea[i] == eb[i];
        EscapedCollision(a[i], b[i]);
      }
    }
    if |a| == |b| && forall i :: 0 <= i < |a| ==> a[i] == b[i] || {a[i], b[i]} == {[], ['\0']} {
      forall i | 0 <= i < |a| ensures ea[i] == eb[i] {
        EscapedCollision(a[i], b[i]);
      }
      assert NodePath(a) == NodePath(b) by { assert ea == eb; }
    }
  }
}
