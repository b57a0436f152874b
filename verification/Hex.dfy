/** Hexadecimal printing of digests and the case-insensitive comparison of checksums. */
module Hex {
  import opened Results
  import opened Text

  type byte = x: int | 0 <= x < 256

  function HexDigit(n: nat): char
    requires n < 16
  {
    if n < 10 then '0' + n as char else 'a' + (n - 10) as char
  }

  predicate IsHexDigit(c: char) {
    '0' <= c <= '9' || 'a' <= c <= 'f' || 'A' <= c <= 'F'
  }

  function DigitValue(c: char): (n: nat)
    requires IsHexDigit(c)
    ensures n < 16
  {
    if c <= '9' then c as int - '0' as int
    else if c <= 'F' then c as int - 'A' as int + 10
    else c as int - 'a' as int + 10
  }

  /** The %x verb on a byte slice: two lower-case digits a byte. */
  function Encode(bs: seq<byte>): (s: string)
    ensures |s| == 2 * |bs|
  {
    if bs == [] then "" else [HexDigit(bs[0] / 16), HexDigit(bs[0] % 16)] + Encode(bs[1..])
  }

  /** Reads hexadecimal text in any letter case. */
  function Decode(s: string): Option<seq<byte>> {
    if s == "" then Some([])
    else if |s| == 1 || !IsHexDigit(s[0]) || !IsHexDigit(s[1]) then None
    else
      match Decode(s[2..])
      case None => None
      case Some(rest) => Some([16 * DigitValue(s[0]) + DigitValue(s[1])] + rest)
  }

  lemma DigitFold(c: char, n: nat)
    requires n < 16
    ensures FoldsTo(c, HexDigit(n)) <==> IsHexDigit(c) && DigitValue(c) == n
  {
  }

  /** Printing loses nothing. */
  lemma {:induction false} DecodeEncode(bs: seq<byte>)
    ensures Decode(Encode(bs)) == Some(bs)
  {
    if bs != [] {
      DecodeEncode(bs[1..]);
      var s := Encode(bs);
      assert s[2..] == Encode(bs[1..]);
      DigitFold(s[0], bs[0] / 16);
      DigitFold(s[1], bs[0] % 16);
      assert bs == [bs[0]] + bs[1..];
    }
  }

  /** The digits of each byte, the high one first. */
  lemma {:induction false} EncodeDigits(bs: seq<byte>, i: nat)
    requires i < |bs|
    ensures Encode(bs)[2 * i] == "0123456789abcdef"[bs[i] / 16] && Encode(bs)[2 * i + 1] == "0123456789abcdef"[bs[i] % 16]
  {
    var rest := Encode(bs[1..]);
    assert Encode(bs)[2..] == rest;
    if i > 0 {
      EncodeDigits(bs[1..], i - 1);
      assert Encode(bs)[2 * i] == rest[2 * (i - 1)] && Encode(bs)[2 * i + 1] == rest[2 * (i - 1) + 1];
    }
  }

  lemma EqualFoldPairs(s: string, t: string)
    requires |s| >= 2 && |t| >= 2
    ensures EqualFold(s, t) <==> FoldsTo(s[0], t[0]) && FoldsTo(s[1], t[1]) && EqualFold(s[2..], t[2..])
  {
  }

  /**
   Folding a text onto a printed digest succeeds exactly when the text, read as hexadecimal in
   any letter case, is that digest.
   */
  lemma {:induction false} EqualFoldIffDecodes(s: string, bs: seq<byte>)
    ensures EqualFold(s, Encode(bs)) <==> Decode(s) == Some(bs)
  {
    if bs == [] {
      if s != "" && |s| != 1 && IsHexDigit(s[0]) && IsHexDigit(s[1]) && Decode(s[2..]).Some? {
        assert |Decode(s).value| > 0;
      }
    } else if |s| >= 2 {
      var t := Encode(bs);
      EqualFoldIffDecodes(s[2..], bs[1..]);
      DigitFold(s[0], bs[0] / 16);
      DigitFold(s[1], bs[0] % 16);
      assert t[2..] == Encode(bs[1..]);
      EqualFoldPairs(s, t);
      assert bs == [bs[0]] + bs[1..];
      if Decode(s) == Some(bs) {
        var rest := Decode(s[2..]).value;
        assert ([16 * DigitValue(s[0]) + DigitValue(s[1])] + rest)[1..] == rest;
      }
    } else if |s| == 1 {
      assert Decode(s) == None;
    }
  }

  /** A printed digest is a single word. */
  lemma {:induction false} EncodeIsSpaceFree(bs: seq<byte>)
    ensures forall i | 0 <= i < |Encode(bs)| :: !IsSpace(Encode(bs)[i])
  {
    if bs != [] {
      EncodeIsSpaceFree(bs[1..]);
    }
  }
}
