/** Base 64 encoding with the standard alphabet and `=` padding (section 4 of
    RFC 4648), as `Buffer.from(bytes).toString('base64')` produces it, and the
    matching decoder. */
module Base64 {
  import opened Common

  predicate IsAlphabetChar(c: char) {
    ('A' <= c <= 'Z') || ('a' <= c <= 'z') || ('0' <= c <= '9') || c == '+' || c == '/'
  }

  /** The character for a 6-bit value: Table 1 of section 4 of RFC 4648
      ('A'..'Z', 'a'..'z', '0'..'9', '+', '/'). */
  function CharOf(v: int): (c: char)
    requires 0 <= v < 64
    ensures IsAlphabetChar(c)
  {
    if v < 26 then ('A' as int + v) as char
    else if v < 52 then ('a' as int + (v - 26)) as char
    else if v < 62 then ('0' as int + (v - 52)) as char
    else if v == 62 then '+'
    else '/'
  }

  /** The 6-bit value of an alphabet character. */
  function ValueOf(c: char): (v: int)
    requires IsAlphabetChar(c)
    ensures 0 <= v < 64
  {
    if 'A' <= c <= 'Z' then c as int - 'A' as int
    else if 'a' <= c <= 'z' then c as int - 'a' as int + 26
    else if '0' <= c <= '9' then c as int - '0' as int + 52
    else if c == '+' then 62
    else 63
  }

  lemma ValueOfCharOf(v: int)
    requires 0 <= v < 64
    ensures ValueOf(CharOf(v)) == v
  {
  }

  /** The four 6-bit values of a 24-bit group (Figure 1 of RFC 4648:
      the octets are read most significant bit first). */
  function Sextets(x0: int, x1: int, x2: int): (v: seq<int>)
    requires 0 <= x0 < 256 && 0 <= x1 < 256 && 0 <= x2 < 256
    ensures |v| == 4 && forall i :: 0 <= i < 4 ==> 0 <= v[i] < 64
  {
    [x0 / 4, (x0 % 4) * 16 + x1 / 16, (x1 % 16) * 4 + x2 / 64, x2 % 64]
  }

  /** The three octets a group of four 6-bit values stands for. */
  function Octets(v0: int, v1: int, v2: int, v3: int): (b: seq<byte>)
    requires 0 <= v0 < 64 && 0 <= v1 < 64 && 0 <= v2 < 64 && 0 <= v3 < 64
    ensures |b| == 3
  {
    [(v0 * 4 + v1 / 16) as byte, ((v1 % 16) * 16 + v2 / 4) as byte, ((v2 % 4) * 64 + v3) as byte]
  }

  /** The bit arithmetic of one group: the 6-bit values give back the octets. */
  lemma OctetsOfSextets(b0: byte, b1: byte, b2: byte)
    ensures var v := Sextets(b0 as int, b1 as int, b2 as int);
            Octets(v[0], v[1], v[2], v[3]) == [b0, b1, b2]
  {
    var x0, x1, x2 := b0 as int, b1 as int, b2 as int;
    var c1 := (x0 % 4) * 16 + x1 / 16;
    assert c1 / 16 == x0 % 4;
    assert c1 % 16 == x1 / 16;
    var c2 := (x1 % 16) * 4 + x2 / 64;
    assert c2 / 4 == x1 % 16;
    assert c2 % 4 == x2 / 64;
  }

  /** The four characters of a group; `pad` of them (0, 1 or 2) at the end are
      replaced by `=`. */
  function EncodeGroup(x0: int, x1: int, x2: int, pad: nat): (s: string)
    requires 0 <= x0 < 256 && 0 <= x1 < 256 && 0 <= x2 < 256 && pad <= 2
    ensures |s| == 4
    ensures forall i :: 0 <= i < 4 - pad ==> IsAlphabetChar(s[i]) && ValueOf(s[i]) == Sextets(x0, x1, x2)[i]
    ensures forall i :: 4 - pad <= i < 4 ==> s[i] == '='
  {
    var v := Sextets(x0, x1, x2);
    ValueOfCharOf(v[0]); ValueOfCharOf(v[1]); ValueOfCharOf(v[2]); ValueOfCharOf(v[3]);
    [CharOf(v[0]), CharOf(v[1]),
     if pad == 2 then '=' else CharOf(v[2]),
     if pad >= 1 then '=' else CharOf(v[3])]
  }

  /** The number of 4-character groups for `n` bytes. */
  function Groups(n: nat): (g: nat)
    ensures g == (n + 2) / 3
  {
    if n == 0 then 0 else if n <= 3 then 1 else 1 + Groups(n - 3)
  }

  /** The encoding of `data`: a final group of one or two octets is
      completed with zero bits and padded with `=`. */
  function Encode(data: seq<byte>): (s: string)
    ensures |s| == 4 * Groups(|data|)
  {
    if |data| == 0 then ""
    else if |data| == 1 then EncodeGroup(data[0] as int, 0, 0, 2)
    else if |data| == 2 then EncodeGroup(data[0] as int, data[1] as int, 0, 1)
    else
      assert Groups(|data|) == 1 + Groups(|data| - 3);
      EncodeGroup(data[0] as int, data[1] as int, data[2] as int, 0) + Encode(data[3..])
  }

  /** The text holds only alphabet characters and `=`. */
  lemma {:induction false} EncodeAlphabet(data: seq<byte>)
    ensures forall i :: 0 <= i < |Encode(data)| ==> IsAlphabetChar(Encode(data)[i]) || Encode(data)[i] == '='
  {
    if |data| >= 3 {
      EncodeFirstGroup(data);
      EncodeAlphabet(data[3..]);
      var g := EncodeGroup(data[0] as int, data[1] as int, data[2] as int, 0);
      var t := Encode(data[3..]);
      forall i | 0 <= i < |g + t|
        ensures IsAlphabetChar((g + t)[i]) || (g + t)[i] == '='
      {
        if i >= 4 {
          assert (g + t)[i] == t[i - 4];
        }
      }
    }
  }

  predicate AlphabetPrefix(s: string, n: nat)
    requires n <= |s|
  {
    forall i :: 0 <= i < n ==> IsAlphabetChar(s[i])
  }

  /** The decoder: groups of four characters, `=` allowed only as the padding
      of the last group. `None` for anything else. */
  function Decode(s: string): (r: Option<seq<byte>>)
    decreases |s|
  {
    if s == [] then Some([])
    else if |s| < 4 then None
    else if |s| == 4 && AlphabetPrefix(s, 2) && s[2] == '=' && s[3] == '=' then
      Some(Octets(ValueOf(s[0]), ValueOf(s[1]), 0, 0)[..1])
    else if |s| == 4 && AlphabetPrefix(s, 3) && s[3] == '=' then
      Some(Octets(ValueOf(s[0]), ValueOf(s[1]), ValueOf(s[2]), 0)[..2])
    else if AlphabetPrefix(s, 4) then
      match Decode(s[4..])
      case None => None
      case Some(rest) => Some(Octets(ValueOf(s[0]), ValueOf(s[1]), ValueOf(s[2]), ValueOf(s[3])) + rest)
    else None
  }

  /** Encoding loses nothing: decoding the text gives back the bytes. */
  lemma {:induction false} DecodeEncode(data: seq<byte>)
    ensures Decode(Encode(data)) == Some(data)
  {
    if |data| == 1 {
      DecodeEncodeOne(data);
    } else if |data| == 2 {
      DecodeEncodeTwo(data);
    } else if |data| >= 3 {
      DecodeEncode(data[3..]);
      DecodeEncodeGroup(data);
    }
  }

  lemma DecodeEncodeOne(data: seq<byte>)
    requires |data| == 1
    ensures Decode(Encode(data)) == Some(data)
  {
    assert Encode(data) == EncodeGroup(data[0] as int, 0, 0, 2);
    DecodeOneOctet(data[0]);
    assert [data[0]] == data;
  }

  lemma DecodeEncodeTwo(data: seq<byte>)
    requires |data| == 2
    ensures Decode(Encode(data)) == Some(data)
  {
    assert Encode(data) == EncodeGroup(data[0] as int, data[1] as int, 0, 1);
    DecodeTwoOctets(data[0], data[1]);
    assert [data[0], data[1]] == data;
  }

  lemma DecodeEncodeGroup(data: seq<byte>)
    requires |data| >= 3 && Decode(Encode(data[3..])) == Some(data[3..])
    ensures Decode(Encode(data)) == Some(data)
  {
    var rest := data[3..];
    var t := Encode(rest);
    var g := EncodeGroup(data[0] as int, data[1] as int, data[2] as int, 0);
    EncodeFirstGroup(data);
    assert Encode(data) == g + t;
    DecodeFullGroup(data[0], data[1], data[2], t, rest);
    SplitThree(data);
  }

  lemma SplitThree(data: seq<byte>)
    requires |data| >= 3
    ensures [data[0], data[1], data[2]] + data[3..] == data
  {
  }

  lemma EncodeFirstGroup(data: seq<byte>)
    requires |data| >= 3
    ensures Encode(data) == EncodeGroup(data[0] as int, data[1] as int, data[2] as int, 0) + Encode(data[3..])
  {
    assert |data| != 0 && |data| != 1 && |data| != 2;
  }

  /** A final group of one octet, padded with `==`. */
  lemma DecodeOneOctet(b0: byte)
    ensures Decode(EncodeGroup(b0 as int, 0, 0, 2)) == Some([b0])
  {
    var s := EncodeGroup(b0 as int, 0, 0, 2);
    var v := Sextets(b0 as int, 0, 0);
    assert ValueOf(s[0]) == v[0] && ValueOf(s[1]) == v[1] && s[2] == '=' && s[3] == '=';
    OctetsOfSextets(b0, 0, 0);
    assert v[2] == 0 && v[3] == 0;
    assert Octets(v[0], v[1], 0, 0) == [b0, 0, 0];
    assert Decode(s) == Some(Octets(v[0], v[1], 0, 0)[..1]);
    assert [b0, 0, 0][..1] == [b0];
  }

  /** A final group of two octets, padded with `=`. */
  lemma DecodeTwoOctets(b0: byte, b1: byte)
    ensures Decode(EncodeGroup(b0 as int, b1 as int, 0, 1)) == Some([b0, b1])
  {
    var s := EncodeGroup(b0 as int, b1 as int, 0, 1);
    var v := Sextets(b0 as int, b1 as int, 0);
    assert ValueOf(s[0]) == v[0] && ValueOf(s[1]) == v[1] && ValueOf(s[2]) == v[2] && s[3] == '=';
    OctetsOfSextets(b0, b1, 0);
    assert v[3] == 0;
    assert Octets(v[0], v[1], v[2], 0) == [b0, b1, 0];
    assert Decode(s) == Some(Octets(v[0], v[1], v[2], 0)[..2]);
    assert [b0, b1, 0][..2] == [b0, b1];
  }

  /** One full group in front of text that decodes to `rest`. */
  lemma DecodeFullGroup(b0: byte, b1: byte, b2: byte, t: string, rest: seq<byte>)
    requires Decode(t) == Some(rest)
    ensures Decode(EncodeGroup(b0 as int, b1 as int, b2 as int, 0) + t) == Some([b0, b1, b2] + rest)
  {
    var s := EncodeGroup(b0 as int, b1 as int, b2 as int, 0) + t;
    assert s[4..] == t;
    var v := Sextets(b0 as int, b1 as int, b2 as int);
    assert ValueOf(s[0]) == v[0] && ValueOf(s[1]) == v[1] && ValueOf(s[2]) == v[2] && ValueOf(s[3]) == v[3];
    assert AlphabetPrefix(s, 4);
    OctetsOfSextets(b0, b1, b2);
    assert Decode(s) == Some(Octets(v[0], v[1], v[2], v[3]) + rest);
  }
}