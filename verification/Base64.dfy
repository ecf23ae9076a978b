/** The standard base64 encoding with padding (section 4 of RFC 4648), decoded the lenient way Go does it: line
    breaks are skipped and the unused bits of the last quantum are not looked at. */
module Base64 {
  import opened GoStrings
  import opened Wrappers

  type Sextet = x: int | 0 <= x < 64

  const PAD: Byte := 61  // '='

  function ToChar(x: Sextet): (c: Byte)
    ensures c != PAD && c != 10 && c != 13
  {
    if x < 26 then 65 + x         // A-Z
    else if x < 52 then 71 + x    // a-z
    else if x < 62 then x - 4     // 0-9
    else if x == 62 then 43       // +
    else 47                       // /
  }

  function FromChar(c: Byte): Option<Sextet> {
    if 65 <= c <= 90 then Some(c - 65)
    else if 97 <= c <= 122 then Some(c - 71)
    else if 48 <= c <= 57 then Some(c + 4)
    else if c == 43 then Some(62)
    else if c == 47 then Some(63)
    else None
  }

  /** One to three bytes as four characters. */
  function EncodeGroup(group: seq<Byte>): (quantum: GoString)
    requires 1 <= |group| <= 3
    ensures |quantum| == 4 && forall c <- quantum :: c != 10 && c != 13
  {
    var a := group[0];
    var b := if |group| > 1 then group[1] else 0;
    var c := if |group| > 2 then group[2] else 0;
    [ToChar(a / 4), ToChar(a % 4 * 16 + b / 16),
     if |group| > 1 then ToChar(b % 16 * 4 + c / 64) else PAD,
     if |group| > 2 then ToChar(c % 64) else PAD]
  }

  function Encode(data: seq<Byte>): GoString {
    if data == [] then []
    else if |data| <= 3 then EncodeGroup(data)
    else EncodeGroup(data[..3]) + Encode(data[3..])
  }

  function SkipLineBreaks(text: GoString): GoString {
    if text == [] then []
    else (if text[0] == 10 || text[0] == 13 then [] else [text[0]]) + SkipLineBreaks(text[1..])
  }

  /** Padding is accepted in the last quantum only. */
  function DecodeQuantum(quantum: GoString, last: bool): Option<seq<Byte>>
    requires |quantum| == 4
  {
    var w, x, y, z := FromChar(quantum[0]), FromChar(quantum[1]), FromChar(quantum[2]), FromChar(quantum[3]);
    if w.None? || x.None? then None
    else
      var first: Byte := w.value * 4 + x.value / 16;
      if quantum[2] == PAD then
        if last && quantum[3] == PAD then Some([first]) else None
      else if y.None? then None
      else
        var second: Byte := x.value % 16 * 16 + y.value / 4;
        if quantum[3] == PAD then
          if last then Some([first, second]) else None
        else if z.None? then None
        else Some([first, second, y.value % 4 * 64 + z.value])
  }

  function DecodeQuanta(text: GoString): Option<seq<Byte>> {
    if text == [] then Some([])
    else if |text| < 4 then None
    else
      var group := DecodeQuantum(text[..4], |text| == 4);
      var rest := DecodeQuanta(text[4..]);
      if group.None? || rest.None? then None else Some(group.value + rest.value)
  }

  function Decode(text: GoString): Option<seq<Byte>> {
    DecodeQuanta(SkipLineBreaks(text))
  }

  lemma {:induction false} EncodedChars(data: seq<Byte>)
    ensures forall c <- Encode(data) :: c != 10 && c != 13
    ensures |Encode(data)| == (|data| + 2) / 3 * 4
  {
    if |data| <= 3 {
    } else {
      EncodedChars(data[3..]);
      assert (|data| + 2) / 3 == 1 + (|data| - 3 + 2) / 3;
    }
  }

  lemma {:induction false} NothingToSkip(text: GoString)
    requires forall c <- text :: c != 10 && c != 13
    ensures SkipLineBreaks(text) == text
  {
    if text == [] {
    } else {
      var first, rest := text[0], text[1..];
      assert text == [first] + rest && first in text;
      assert forall c <- rest :: c in text;
      NothingToSkip(rest);
      assert SkipLineBreaks(text) == [first] + SkipLineBreaks(rest);
    }
  }

  lemma CharInverts(x: Sextet)
    ensures FromChar(ToChar(x)) == Some(x) && ToChar(x) != PAD
  {
  }

  /** Three bytes as four sextets. */
  predicate Cuts(a: Byte, b: Byte, c: Byte, w: Sextet, x: Sextet, y: Sextet, z: Sextet) {
    w * 4 + x / 16 == a && x % 16 * 16 + y / 4 == b && y % 4 * 64 + z == c
  }

  lemma GroupIsCut(group: seq<Byte>) returns (w: Sextet, x: Sextet, y: Sextet, z: Sextet)
    requires 1 <= |group| <= 3
    ensures Cuts(group[0], if |group| > 1 then group[1] else 0, if |group| > 2 then group[2] else 0, w, x, y, z)
    ensures EncodeGroup(group) == [ToChar(w), ToChar(x), if |group| > 1 then ToChar(y) else PAD,
                                   if |group| > 2 then ToChar(z) else PAD]
  {
    var a := group[0];
    var b := if |group| > 1 then group[1] else 0;
    var c := if |group| > 2 then group[2] else 0;
    w, x, y, z := a / 4, a % 4 * 16 + b / 16, b % 16 * 4 + c / 64, c % 64;
  }

  /** A quantum of four, three or two characters before its padding. */
  lemma QuantumDecodes(a: Byte, b: Byte, c: Byte, w: Sextet, x: Sextet, y: Sextet, z: Sextet, last: bool)
    requires Cuts(a, b, c, w, x, y, z)
    ensures DecodeQuantum([ToChar(w), ToChar(x), ToChar(y), ToChar(z)], last) == Some([a, b, c])
    ensures DecodeQuantum([ToChar(w), ToChar(x), ToChar(y), PAD], true) == Some([a, b])
    ensures DecodeQuantum([ToChar(w), ToChar(x), PAD, PAD], true) == Some([a])
  {
    CharInverts(w);
    CharInverts(x);
    CharInverts(y);
    CharInverts(z);
  }

  lemma GroupInverts(group: seq<Byte>, last: bool)
    requires 1 <= |group| <= 3 && (last || |group| == 3)
    ensures DecodeQuantum(EncodeGroup(group), last) == Some(group)
  {
    var w, x, y, z := GroupIsCut(group);
    var b := if |group| > 1 then group[1] else 0;
    var c := if |group| > 2 then group[2] else 0;
    QuantumDecodes(group[0], b, c, w, x, y, z, last);
    assert group == if |group| == 1 then [group[0]] else if |group| == 2 then [group[0], b] else [group[0], b, c];
  }

  lemma {:induction false} QuantaInvert(data: seq<Byte>)
    ensures DecodeQuanta(Encode(data)) == Some(data)
  {
    if data == [] {
    } else {
      var group := if |data| <= 3 then data else data[..3];
      GroupInverts(group, |data| <= 3);
      var text := Encode(data);
      assert text[..4] == EncodeGroup(group);
      if |data| <= 3 {
        assert text[4..] == [];
        assert DecodeQuanta(text[4..]) == Some([]);
        assert group + [] == data;
      } else {
        QuantaInvert(data[3..]);
        assert text[4..] == Encode(data[3..]);
        assert Encode(data[3..]) != [];
        assert data == data[..3] + data[3..];
      }
    }
  }

  /** Decoding gives back every byte string. */
  lemma DecodeInvertsEncode(data: seq<Byte>)
    ensures Decode(Encode(data)) == Some(data)
  {
    EncodedChars(data);
    NothingToSkip(Encode(data));
    QuantaInvert(data);
  }

  /** Wherever line breaks stand, decoding gives the same. */
  lemma LineBreaksDoNotMatter(a: GoString, lineBreak: Byte, b: GoString)
    requires lineBreak == '\n' as int || lineBreak == '\r' as int
    ensures Decode(a + [lineBreak] + b) == Decode(a + b)
  {
    SkipInTwo(a + [lineBreak], b);
    SkipInTwo(a, [lineBreak]);
    SkipInTwo(a, b);
    assert [lineBreak][1..] == [] && SkipLineBreaks([lineBreak]) == [];
    assert SkipLineBreaks(a) + [] == SkipLineBreaks(a);
  }

  lemma {:induction false} SkipInTwo(a: GoString, b: GoString)
    ensures SkipLineBreaks(a + b) == SkipLineBreaks(a) + SkipLineBreaks(b)
  {
    if a == [] {
      assert a + b == b;
    } else {
      assert (a + b)[0] == a[0] && (a + b)[1..] == a[1..] + b;
      SkipInTwo(a[1..], b);
    }
  }

  predicate InAlphabet(c: Byte) {
    var x := c as char;
    'A' <= x <= 'Z' || 'a' <= x <= 'z' || '0' <= x <= '9' || x == '+' || x == '/'
  }

  /** Whole quanta of letters of the alphabet, but for so many '=' at the end. */
  predicate Padded(text: GoString, padding: nat) {
    && |text| % 4 == 0 && padding <= 2 && padding <= |text|
    && (forall i | 0 <= i < |text| - padding :: InAlphabet(text[i]))
    && (forall i | |text| - padding <= i < |text| :: text[i] == '=' as int)
  }

  ghost predicate WellFormed(text: GoString) {
    exists p: nat :: Padded(text, p)
  }

  lemma QuantumIsPadded(text: GoString, last: bool)
    requires |text| == 4
    ensures var group := DecodeQuantum(text, last);
            && (group.Some? <==> exists p: nat :: Padded(text, p) && (last || p == 0))
            && (forall p: nat | group.Some? && Padded(text, p) :: |group.value| == 3 - p)
  {
    if DecodeQuantum(text, last).Some? {
      var p: nat := 3 - |DecodeQuantum(text, last).value|;
      assert Padded(text, p);
    }
  }

  lemma {:induction false} QuantaArePadded(text: GoString)
    ensures DecodeQuanta(text).Some? <==> WellFormed(text)
    ensures forall p: nat | DecodeQuanta(text).Some? && Padded(text, p) ::
              |DecodeQuanta(text).value| == |text| / 4 * 3 - p
  {
    if text == [] {
      assert Padded(text, 0);
    } else if |text| < 4 {
    } else {
      var quantum, rest := text[..4], text[4..];
      QuantumIsPadded(quantum, |text| == 4);
      if |text| == 4 {
        assert quantum == text && rest == [] && DecodeQuanta(rest) == Some([]);
      } else {
        QuantaArePadded(rest);
        PaddedRest(text);
        assert |text| / 4 == 1 + |rest| / 4;
        if WellFormed(rest) {
          var p: nat :| Padded(rest, p);
          assert Padded(text, p) <==> Padded(quantum, 0);
        }
      }
    }
  }

  lemma PaddedRest(text: GoString)
    requires |text| > 4
    ensures forall p: nat :: Padded(text, p) <==> Padded(text[..4], 0) && Padded(text[4..], p)
  {
    var quantum, rest := text[..4], text[4..];
    forall p: nat ensures Padded(text, p) <==> Padded(quantum, 0) && Padded(rest, p) {
      assert forall i | 0 <= i < |rest| :: rest[i] == text[i + 4];
      assert forall i | 4 <= i < |text| :: text[i] == rest[i - 4];
    }
  }

  /** Decoding fails exactly for text that, line breaks aside, is not whole quanta of the alphabet with at most two '='
      at the end; what comes out has three bytes for every quantum but for the padding. */
  lemma DecodesExactly(text: GoString)
    ensures var letters := SkipLineBreaks(text);
            && (Decode(text).Some? <==> WellFormed(letters))
            && (forall p: nat | Decode(text).Some? && Padded(letters, p) ::
                  |Decode(text).value| == |letters| / 4 * 3 - p)
  {
    QuantaArePadded(SkipLineBreaks(text));
  }

  /** The alphabet in order. */
  lemma Alphabet(x: Sextet)
    ensures x < 26 ==> ToChar(x) == "ABCDEFGHIJKLMNOPQRSTUVWXYZ"[x] as int
    ensures 26 <= x < 52 ==> ToChar(x) == "abcdefghijklmnopqrstuvwxyz"[x - 26] as int
    ensures x >= 52 ==> ToChar(x) == "0123456789+/"[x - 52] as int
  {
  }

  lemma EncodeStep(group: seq<Byte>, rest: seq<Byte>)
    requires |group| == 3 && rest != []
    ensures Encode(group + rest) == Encode(group) + Encode(rest)
  {
    assert (group + rest)[..3] == group && (group + rest)[3..] == rest;
  }

  lemma VectorsUpToFoo()
    ensures Encode([]) == []
    ensures Encode([102]) == [90, 103, 61, 61]             // f: Zg==
    ensures Encode([102, 111]) == [90, 109, 56, 61]        // fo: Zm8=
    ensures Encode([102, 111, 111]) == [90, 109, 57, 118]  // foo: Zm9v
  {
  }

  lemma VectorsOfBar()
    ensures Encode([98]) == [89, 103, 61, 61]             // b: Yg==
    ensures Encode([98, 97]) == [89, 109, 69, 61]         // ba: YmE=
    ensures Encode([98, 97, 114]) == [89, 109, 70, 121]   // bar: YmFy
  {
  }

  /** The test vectors of section 10 of RFC 4648: f, fo, foo, and foo followed by b, ba, bar. */
  lemma StandardVectors()
    ensures var foo, vectors := [102, 111, 111], [90, 109, 57, 118];
            && Encode([]) == [] && Encode(foo[..1]) == [90, 103, 61, 61] && Encode(foo[..2]) == [90, 109, 56, 61]
            && Encode(foo) == vectors
            && Encode(foo + [98]) == vectors + [89, 103, 61, 61]
            && Encode(foo + [98, 97]) == vectors + [89, 109, 69, 61]
            && Encode(foo + [98, 97, 114]) == vectors + [89, 109, 70, 121]
  {
    VectorsUpToFoo();
    VectorsOfBar();
    var foo: seq<Byte> := [102, 111, 111];
    assert foo[..1] == [102] && foo[..2] == [102, 111];
    EncodeStep(foo, [98]);
    EncodeStep(foo, [98, 97]);
    EncodeStep(foo, [98, 97, 114]);
  }
}
