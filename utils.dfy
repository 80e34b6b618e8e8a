/**
 * `hex_to_byte_arr`: the text "00 00 00 00" read as four bytes. The text is
 * split at every single space; each piece is parsed as a hexadecimal `u8` and
 * stored at the next position of a zero-filled four-byte array, and the first
 * piece that does not parse ends the call with that piece's error.
 *
 * `HexBytes` is the specification and `HexToByteArr` is the source's loop,
 * proved against it. A fifth piece that parses writes past the array, which
 * panics; `Overruns` names those inputs and the method excludes them.
 */
module Utils {
  import opened Wrappers
  import opened Numeric

  /** `s.split(" ")`: the pieces between single spaces, empty ones included. */
  function SplitSpaces(s: string): (pieces: seq<string>)
    ensures |pieces| >= 1
    ensures forall k :: 0 <= k < |pieces| ==> ' ' !in pieces[k]
    decreases |s|
  {
    if s == [] then [""]
    else
      var rest := SplitSpaces(s[1..]);
      if s[0] == ' ' then [""] + rest
      else [[s[0]] + rest[0]] + rest[1..]
  }

  /** The pieces put back together with a single space between neighbours. */
  function JoinSpaces(pieces: seq<string>): string
    requires |pieces| >= 1
    decreases |pieces|
  {
    if |pieces| == 1 then pieces[0] else pieces[0] + " " + JoinSpaces(pieces[1..])
  }

  /** Splitting loses nothing: joining the pieces gives back the text. */
  lemma {:induction false} SplitJoin(s: string)
    ensures JoinSpaces(SplitSpaces(s)) == s
    decreases |s|
  {
    if s != [] {
      var rest := SplitSpaces(s[1..]);
      SplitJoin(s[1..]);
      if s[0] == ' ' {
        assert ([""] + rest)[1..] == rest;
      } else {
        var pieces := SplitSpaces(s);
        assert pieces[1..] == rest[1..];
        if |rest| > 1 {
          assert JoinSpaces(rest) == rest[0] + " " + JoinSpaces(rest[1..]);
        }
      }
    }
  }

  /** A word without spaces is one piece. */
  lemma {:induction false} SplitWord(w: string)
    requires ' ' !in w
    ensures SplitSpaces(w) == [w]
    decreases |w|
  {
    if w != [] {
      SplitWord(w[1..]);
      assert [w[0]] + w[1..] == w;
    }
  }

  /** A word followed by a space is split off as the first piece. */
  lemma {:induction false} SplitLeadingWord(w: string, t: string)
    requires ' ' !in w
    ensures SplitSpaces(w + " " + t) == [w] + SplitSpaces(t)
    decreases |w|
  {
    if w == [] {
      assert w + " " + t == [' '] + t;
      assert (w + " " + t)[1..] == t;
    } else {
      SplitLeadingWord(w[1..], t);
      assert (w + " " + t)[1..] == w[1..] + " " + t;
      assert [w[0]] + w[1..] == w;
    }
  }

  /** Pieces without spaces survive a join and a split: the two are inverse. */
  lemma {:induction false} JoinSplit(pieces: seq<string>)
    requires |pieces| >= 1
    requires forall k :: 0 <= k < |pieces| ==> ' ' !in pieces[k]
    ensures SplitSpaces(JoinSpaces(pieces)) == pieces
    decreases |pieces|
  {
    if |pieces| == 1 {
      SplitWord(pieces[0]);
    } else {
      JoinSplit(pieces[1..]);
      SplitLeadingWord(pieces[0], JoinSpaces(pieces[1..]));
      assert [pieces[0]] + pieces[1..] == pieces;
    }
  }

  /** Whether every piece parses as a hexadecimal byte. */
  predicate AllParse(pieces: seq<string>)
  {
    forall k :: 0 <= k < |pieces| ==> ParseHexU8(pieces[k]).Ok?
  }

  /**
   * The inputs on which the source indexes past its array: the first five
   * pieces all parse, so the fifth is stored at index 4 of a four-byte array.
   */
  predicate Overruns(pieces: seq<string>)
  {
    |pieces| >= 5 && AllParse(pieces[..5])
  }

  /** The error of the first piece that does not parse, if any. */
  function FirstError(pieces: seq<string>): (e: Option<IntErrorKind>)
    ensures e.None? <==> AllParse(pieces)
    decreases |pieces|
  {
    if pieces == [] then None
    else
      match ParseHexU8(pieces[0])
      case Err(err) => Some(err)
      case Ok(_) =>
        assert forall k :: 1 <= k < |pieces| ==> pieces[1..][k - 1] == pieces[k];
        FirstError(pieces[1..])
  }

  /** The bytes of at most four parsing pieces, in order, then zeros up to four. */
  function Padded(pieces: seq<string>): (bytes: seq<u8>)
    requires AllParse(pieces) && |pieces| <= 4
  {
    seq(4, i requires 0 <= i < 4 => if i < |pieces| then ParseHexU8(pieces[i]).value as u8 else 0)
  }

  /** What `hex_to_byte_arr` returns for the pieces of its text, when it does not panic. */
  function FillBytes(pieces: seq<string>): (r: Result<seq<u8>, IntErrorKind>)
    requires !Overruns(pieces)
    ensures r.Ok? ==> |r.value| == 4
  {
    match FirstError(pieces)
    case Some(err) => Err(err)
    case None => Ok(Padded(pieces))
  }

  /** What `hex_to_byte_arr` returns for text on which it does not panic. */
  function HexBytes(hexes: string): (r: Result<seq<u8>, IntErrorKind>)
    requires !Overruns(SplitSpaces(hexes))
  {
    FillBytes(SplitSpaces(hexes))
  }

  /** The first piece that does not parse decides the error. */
  lemma {:induction false} FirstErrorAt(pieces: seq<string>, k: nat)
    requires k < |pieces| && AllParse(pieces[..k]) && ParseHexU8(pieces[k]).Err?
    ensures FirstError(pieces) == Some(ParseHexU8(pieces[k]).error)
    decreases k
  {
    if k > 0 {
      assert ParseHexU8(pieces[..k][0]).Ok?;
      assert pieces[1..][..k - 1] == pieces[..k][1..];
      FirstErrorAt(pieces[1..], k - 1);
    }
  }

  /** Storing the next piece's byte extends the padded prefix by one. */
  lemma PaddedStep(pieces: seq<string>, k: nat)
    requires k < |pieces| && k < 4 && AllParse(pieces[..k]) && ParseHexU8(pieces[k]).Ok?
    ensures AllParse(pieces[..k + 1])
    ensures Padded(pieces[..k + 1]) == Padded(pieces[..k])[k := ParseHexU8(pieces[k]).value as u8]
  {
    assert forall j :: 0 <= j < k ==> pieces[..k + 1][j] == pieces[..k][j];
  }

  /** A piece that parses after four that did would be a fifth: the input overruns. */
  lemma StoreInBounds(pieces: seq<string>, k: nat)
    requires !Overruns(pieces) && k < |pieces| && AllParse(pieces[..k]) && ParseHexU8(pieces[k]).Ok?
    ensures k < 4
  {
    assert forall j :: 0 <= j <= k ==> ParseHexU8(pieces[j]).Ok?;
  }

  /** `hex_to_byte_arr` itself: fill the array piece by piece, stop at the first bad one. */
  method HexToByteArr(hexes: string) returns (r: Result<seq<u8>, IntErrorKind>)
    requires !Overruns(SplitSpaces(hexes))
    ensures r == HexBytes(hexes)
  {
    var byteArray := new u8[4](_ => 0);
    var pieces := SplitSpaces(hexes);
    var index := 0;
    for k := 0 to |pieces|
      invariant index == k <= 4
      invariant AllParse(pieces[..k])
      invariant byteArray[..] == Padded(pieces[..k])
    {
      match ParseHexU8(pieces[k]) {
        case Ok(value) =>
          StoreInBounds(pieces, k);
          PaddedStep(pieces, k);
          byteArray[index] := value as u8;
          index := index + 1;
        case Err(err) =>
          FirstErrorAt(pieces, k);
          return Err(err);
      }
    }
    assert pieces[..|pieces|] == pieces;
    r := Ok(byteArray[..]);
  }

  /** When every piece parses there are at most four, and their bytes fill the array in order, zeros after them. */
  lemma FillBytesAllParse(pieces: seq<string>)
    requires !Overruns(pieces) && AllParse(pieces)
    ensures |pieces| <= 4 && FillBytes(pieces) == Ok(Padded(pieces))
    ensures forall j :: 0 <= j < |pieces| ==> Padded(pieces)[j] == ParseHexU8(pieces[j]).value
    ensures forall j :: |pieces| <= j < 4 ==> Padded(pieces)[j] == 0
  {
  }

  /**
   * What `hex_to_byte_arr` promises about the pieces of its text: it fails
   * exactly when some piece does not parse, with the error of the first such piece; otherwise there are at most
   * four pieces and their bytes fill the array in order, zeros after them.
   */
  lemma FillBytesCharacterised(pieces: seq<string>) returns (k: nat)
    requires !Overruns(pieces)
    ensures FillBytes(pieces).Err? <==> exists j :: 0 <= j < |pieces| && ParseHexU8(pieces[j]).Err?
    ensures FillBytes(pieces).Err? ==>
              && k < |pieces| && AllParse(pieces[..k]) && ParseHexU8(pieces[k]).Err?
              && FillBytes(pieces).error == ParseHexU8(pieces[k]).error
    ensures FillBytes(pieces).Ok? ==>
              && |pieces| <= 4
              && (forall j :: 0 <= j < |pieces| ==> FillBytes(pieces).value[j] == ParseHexU8(pieces[j]).value)
              && (forall j :: |pieces| <= j < 4 ==> FillBytes(pieces).value[j] == 0)
  {
    k := 0;
    if AllParse(pieces) {
      FillBytesAllParse(pieces);
    } else {
      while ParseHexU8(pieces[k]).Ok?
        invariant k < |pieces| && AllParse(pieces[..k])
        invariant exists j :: k <= j < |pieces| && ParseHexU8(pieces[j]).Err?
        decreases |pieces| - k
      {
        assert pieces[..k + 1][..k] == pieces[..k];
        k := k + 1;
      }
      FirstErrorAt(pieces, k);
    }
  }

  /** The input with no text at all is one empty piece, which is an `Empty` error. */
  lemma EmptyTextFails()
    ensures SplitSpaces("") == [""]
    ensures HexBytes("") == Err(Empty)
  {
    assert FirstError([""]) == Some(Empty);
  }

  /** A hexadecimal digit in lower case. */
  function HexDigit(d: nat): char
    requires d < 16
  {
    "0123456789abcdef"[d]
  }

  /** A byte written as two lower-case hexadecimal digits. */
  function HexPair(b: u8): string
  {
    [HexDigit(b / 16), HexDigit(b % 16)]
  }

  /** A hexadecimal digit is read back as its value, and is neither a space nor a sign. */
  lemma HexDigitValue(d: nat)
    requires d < 16
    ensures DigitValue(HexDigit(d), 16) == Some(d)
    ensures HexDigit(d) != ' ' && HexDigit(d) != '+' && HexDigit(d) != '-'
  {
  }

  /** The two digits of a byte denote the byte. */
  lemma HexPairValue(b: u8)
    ensures |HexPair(b)| == 2 && ' ' !in HexPair(b) && !HasSign(HexPair(b), false)
    ensures AllDigits(HexPair(b), 16) && DigitsValue(HexPair(b), 16) == b
  {
    var s := HexPair(b);
    HexDigitValue(b / 16);
    HexDigitValue(b % 16);
    assert DigitsValue(s[1..], 16) == b % 16 by {
      assert s[1..][1..] == [];
    }
  }

  /** A byte written as two hexadecimal digits parses back to the byte. */
  lemma HexPairParses(b: u8)
    ensures ' ' !in HexPair(b)
    ensures ParseHexU8(HexPair(b)) == Ok(b)
  {
    HexPairValue(b);
    FromStrRadixCharacterised(HexPair(b), 16, false, 0, 0xff);
  }

  /** The format the reader expects, "hh hh hh hh", gives back the four bytes written. */
  lemma {:induction false} HexRoundTrip(b0: u8, b1: u8, b2: u8, b3: u8)
    ensures var text := JoinSpaces([HexPair(b0), HexPair(b1), HexPair(b2), HexPair(b3)]);
            !Overruns(SplitSpaces(text)) && HexBytes(text) == Ok([b0, b1, b2, b3])
  {
    var pieces := [HexPair(b0), HexPair(b1), HexPair(b2), HexPair(b3)];
    HexPairParses(b0);
    HexPairParses(b1);
    HexPairParses(b2);
    HexPairParses(b3);
    JoinSplit(pieces);
    assert AllParse(pieces);
    assert FillBytes(pieces) == Ok(Padded(pieces));
    assert Padded(pieces) == [b0, b1, b2, b3];
  }
}
